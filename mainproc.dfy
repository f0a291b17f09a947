/**
 * The Electron main process (main.js): the table of app types and their window sizes, the
 * registry of open app windows, the window-id resolution of the window-control messages, the
 * isolated-path guards, the extension-to-app dispatch, the document-list order and the
 * console-error filter used with a proxy.
 *
 * Window creation, the file system and dialogs are not modelled: `Date.now()` and the new
 * window's contents id are parameters, and the root of the isolated environment is a parameter.
 */
module MainProcess {
  import opened Wrappers
  import opened Text

  // ---------------------------------------------------------------------------------------------
  // App types

  /** The page an app window loads and its default size. */
  datatype AppSpec = AppSpec(file: string, width: int, height: int)

  /** The app types `createAppWindow` knows. */
  function AppTable(appType: string): Option<AppSpec> {
    if appType == "browser" then Some(AppSpec("browser.html", 1200, 800))
    else if appType == "terminal" then Some(AppSpec("terminal.html", 1200, 800))
    else if appType == "word" then Some(AppSpec("word.html", 1000, 700))
    else if appType == "sheets" then Some(AppSpec("sheets.html", 1200, 800))
    else if appType == "filemanager" then Some(AppSpec("filemanager.html", 900, 600))
    else None
  }

  /** The `options` a window is asked for with; an absent field is none. */
  datatype Options = Options(width: Option<int>, height: Option<int>, filePath: Option<string>)

  /** `options.width || default`: a given size is used unless it is `0`. */
  function OrDefault(given: Option<int>, default: int): int {
    if given.Some? && given.value != 0 then given.value else default
  }

  /** The page and size of a new window of this type, or none for an unknown type. */
  function WindowSpec(appType: string, options: Options): Option<AppSpec> {
    match AppTable(appType)
    case None => None
    case Some(s) => Some(AppSpec(s.file, OrDefault(options.width, s.width), OrDefault(options.height, s.height)))
  }

  /**
   * Exactly the five app types open a window, each loading its own page; a size that is given
   * and not `0` is used, otherwise the type's default.
   */
  lemma WindowSpecSizes(appType: string, options: Options)
    ensures WindowSpec(appType, options).Some? <==> appType in {"browser", "terminal", "word", "sheets", "filemanager"}
    ensures WindowSpec(appType, options).Some? ==>
      var s := WindowSpec(appType, options).value;
      s.file == appType + ".html"
      && (options.width.Some? && options.width.value != 0 ==> s.width == options.width.value)
      && (options.height.Some? && options.height.value != 0 ==> s.height == options.height.value)
      && (!(options.width.Some? && options.width.value != 0) ==> s.width == AppTable(appType).value.width)
      && (!(options.height.Some? && options.height.value != 0) ==> s.height == AppTable(appType).value.height)
  {
  }

  // ---------------------------------------------------------------------------------------------
  // The window registry

  /** An entry of `appWindows`; the window itself is known by its contents' id. */
  datatype AppWindow = AppWindow(window: int, appType: string, id: int)

  /** A `Map` keeps its keys in the order they were first set. */
  datatype Windows = Windows(order: seq<int>, table: map<int, AppWindow>)

  predicate Distinct(s: seq<int>) {
    forall i, j :: 0 <= i < j < |s| ==> s[i] != s[j]
  }

  /** The order lists each key of the table once. */
  ghost predicate WellFormed(w: Windows) {
    Distinct(w.order)
    && (forall i :: 0 <= i < |w.order| ==> w.order[i] in w.table)
    && (forall k :: k in w.table ==> k in w.order)
  }

  /** `map.set(id, entry)`: a new key goes last, an existing key keeps its place. */
  function Put(w: Windows, id: int, entry: AppWindow): Windows {
    Windows(if id in w.table then w.order else w.order + [id], w.table[id := entry])
  }

  /** The keys other than `id`, in order. */
  function Without(order: seq<int>, id: int): (r: seq<int>)
    ensures |r| <= |order|
    decreases |order|
  {
    if order == [] then []
    else (if order[0] != id then [order[0]] else []) + Without(order[1..], id)
  }

  lemma {:induction false} WithoutKeeps(order: seq<int>, id: int)
    ensures forall k :: k in Without(order, id) <==> k in order && k != id
    decreases |order|
  {
    if order != [] {
      WithoutKeeps(order[1..], id);
      assert order == [order[0]] + order[1..];
    }
  }

  lemma {:induction false} WithoutDistinct(order: seq<int>, id: int)
    requires Distinct(order)
    ensures Distinct(Without(order, id))
    decreases |order|
  {
    if order != [] {
      WithoutDistinct(order[1..], id);
      WithoutKeeps(order[1..], id);
      var rest := Without(order[1..], id);
      assert order[0] !in order[1..] by {
        assert forall j :: 1 <= j < |order| ==> order[j] == order[1..][j - 1];
      }
      if order[0] != id {
        var r := Without(order, id);
        assert r == [order[0]] + rest;
        forall i, j | 0 <= i < j < |r| ensures r[i] != r[j] {
          assert r[j] == rest[j - 1] && rest[j - 1] in rest;
          if i == 0 {
            assert r[i] == order[0];
          } else {
            assert r[i] == rest[i - 1];
          }
        }
      } else {
        assert Without(order, id) == rest;
      }
    }
  }

  /** `map.delete(id)` */
  function Remove(w: Windows, id: int): Windows {
    Windows(Without(w.order, id), w.table - {id})
  }

  /** Registering keeps the registry well formed, files the entry under its id and touches no other entry. */
  lemma PutEntry(w: Windows, id: int, entry: AppWindow)
    requires WellFormed(w)
    ensures WellFormed(Put(w, id, entry))
    ensures id in Put(w, id, entry).table && Put(w, id, entry).table[id] == entry
    ensures forall k :: k != id ==> (k in Put(w, id, entry).table <==> k in w.table)
    ensures forall k :: k != id && k in w.table ==> Put(w, id, entry).table[k] == w.table[k]
  {
  }

  /** Unregistering keeps the registry well formed and removes exactly that entry; the others keep their order. */
  lemma RemoveEntry(w: Windows, id: int)
    requires WellFormed(w)
    ensures WellFormed(Remove(w, id))
    ensures id !in Remove(w, id).table
    ensures forall k :: k != id ==> (k in Remove(w, id).table <==> k in w.table)
    ensures forall k :: k != id && k in w.table ==> Remove(w, id).table[k] == w.table[k]
    ensures Remove(w, id).order == Without(w.order, id)
  {
    WithoutKeeps(w.order, id);
    WithoutDistinct(w.order, id);
    var r := Remove(w, id);
    forall i | 0 <= i < |r.order| ensures r.order[i] in r.table {
      assert r.order[i] in r.order;
    }
  }

  /** The first key, in order, whose window belongs to the sender. */
  function FirstBySender(order: seq<int>, table: map<int, AppWindow>, sender: int): (r: Option<int>)
    requires forall i :: 0 <= i < |order| ==> order[i] in table
    decreases |order|
  {
    if order == [] then None
    else if table[order[0]].window == sender then Some(order[0])
    else FirstBySender(order[1..], table, sender)
  }

  /** The sender's first window is a registered window of that sender, and none before it is. */
  lemma {:induction false} FirstBySenderFinds(order: seq<int>, table: map<int, AppWindow>, sender: int)
    requires forall i :: 0 <= i < |order| ==> order[i] in table
    ensures FirstBySender(order, table, sender).None? <==> forall i :: 0 <= i < |order| ==> table[order[i]].window != sender
    ensures FirstBySender(order, table, sender).Some? ==>
      exists i :: 0 <= i < |order| && order[i] == FirstBySender(order, table, sender).value
        && table[order[i]].window == sender
        && forall j :: 0 <= j < i ==> table[order[j]].window != sender
    decreases |order|
  {
    if order != [] {
      var rest := order[1..];
      assert forall i :: 0 <= i < |rest| ==> rest[i] == order[i + 1];
      FirstBySenderFinds(rest, table, sender);
      var r := FirstBySender(rest, table, sender);
      if table[order[0]].window == sender {
        assert order[0] == FirstBySender(order, table, sender).value;
      } else if r.Some? {
        var i :| 0 <= i < |rest| && rest[i] == r.value && table[rest[i]].window == sender
          && forall j :: 0 <= j < i ==> table[rest[j]].window != sender;
        assert order[i + 1] == r.value && table[order[i + 1]].window == sender;
        assert forall j :: 0 <= j < i + 1 ==> table[order[j]].window != sender by {
          forall j | 0 <= j < i + 1 ensures table[order[j]].window != sender {
            if j > 0 { assert order[j] == rest[j - 1]; }
          }
        }
      } else {
        assert forall i :: 0 <= i < |order| ==> table[order[i]].window != sender by {
          forall i | 0 <= i < |order| ensures table[order[i]].window != sender {
            if i > 0 { assert order[i] == rest[i - 1]; }
          }
        }
      }
    }
  }

  /** A window id is missing when it is absent or `0`. */
  predicate Falsy(id: Option<int>) { id.None? || id.value == 0 }

  /** The id a window-control message acts on: the given id, or the sender's first window if it gave none. */
  function Resolve(w: Windows, windowId: Option<int>, sender: int): Option<int>
    requires WellFormed(w)
  {
    if !Falsy(windowId) then windowId
    else match FirstBySender(w.order, w.table, sender)
      case Some(id) => Some(id)
      case None => windowId
  }

  // ---------------------------------------------------------------------------------------------
  // Paths and files

  /** The isolated-environment guard: a plain test that the path text starts with the root's. */
  predicate Inside(root: string, path: string) {
    StartsWith(path, root)
  }

  /**
   * The guard admits anything written after the root, `..` steps and sibling directories whose
   * names merely start with the root's included, and refuses every other path.
   */
  lemma InsideAdmitsSuffixes(root: string, suffix: string, path: string)
    ensures Inside(root, root + suffix)
    ensures Inside(root, root + "/../outside")
    ensures !StartsWith(path, root) ==> !Inside(root, path)
  {
    assert (root + suffix)[..|root|] == root;
    assert (root + "/../outside")[..|root|] == root;
  }

  /** `path.extname(p)` for a path without a trailing `/`: from the base name's last `.`, unless that dot begins the name. */
  function ExtName(p: string): string {
    var base := AfterLast(p, {'/'});
    var afterDot := AfterLast(base, {'.'});
    if |afterDot| + 1 >= |base| then "" else "." + afterDot
  }

  /** A `.` and what follows it at the end of a base name that ends `p`. */
  lemma DotSuffix(p: string, base: string, afterDot: string)
    requires |base| <= |p| && base == p[|p| - |base|..] && (forall i :: 0 <= i < |base| ==> base[i] !in {'/'})
    requires |afterDot| + 1 < |base| && afterDot == base[|base| - |afterDot|..]
    requires (forall i :: 0 <= i < |afterDot| ==> afterDot[i] !in {'.'}) && base[|base| - |afterDot| - 1] == '.'
    ensures var e := "." + afterDot;
      EndsWith(p, e) && forall i :: 1 <= i < |e| ==> e[i] != '.' && e[i] != '/'
  {
    var e := "." + afterDot;
    var k := |base| - |afterDot| - 1;
    assert e == base[k..] by {
      assert base[k..] == [base[k]] + base[k + 1..];
    }
    assert EndsWith(p, e) by {
      assert base[k..] == p[|p| - |base| + k..];
    }
    forall i | 1 <= i < |e| ensures e[i] != '.' && e[i] != '/' {
      assert e[i] == afterDot[i - 1];
      assert e[i] == base[k + i];
    }
  }

  /** An extension is empty or a `.` followed by the end of the base name, which has no other `.` or `/`. */
  lemma ExtNameShape(p: string)
    ensures var e := ExtName(p);
      e == "" || (e[0] == '.' && EndsWith(p, e) && forall i :: 1 <= i < |e| ==> e[i] != '.' && e[i] != '/')
  {
    var base := AfterLast(p, {'/'});
    var afterDot := AfterLast(base, {'.'});
    AfterLastSuffix(p, {'/'});
    AfterLastSuffix(base, {'.'});
    if |afterDot| + 1 < |base| {
      DotSuffix(p, base, afterDot);
    }
  }

  /** The extensions the writer opens, and those the spreadsheet opens. */
  const WordExtensions: set<string> := {".doc", ".docx", ".txt", ".rtf", ".html", ".htm"}
  const SheetsExtensions: set<string> := {".xls", ".xlsx", ".csv", ".json"}

  /** The app `open-file-in-app` chooses for a path, by its lower-cased extension. */
  function AppForFile(p: string): Option<string> {
    var ext := ToLower(ExtName(p));
    if ext in WordExtensions then Some("word")
    else if ext in SheetsExtensions then Some("sheets")
    else None
  }

  /** The writer and the spreadsheet take disjoint sets of extensions, and every other extension is refused. */
  lemma AppForFileCases(p: string)
    ensures AppForFile(p) == Some("word") <==> ToLower(ExtName(p)) in WordExtensions
    ensures AppForFile(p) == Some("sheets") <==> ToLower(ExtName(p)) in SheetsExtensions
    ensures AppForFile(p).None? <==> ToLower(ExtName(p)) !in WordExtensions + SheetsExtensions
    ensures AppForFile(p).Some? ==> AppTable(AppForFile(p).value).Some?
  {
    ExtensionsDisjoint();
  }

  /** No extension is claimed by both apps. */
  lemma ExtensionsDisjoint()
    ensures forall x :: x in WordExtensions ==> x !in SheetsExtensions
  {
    forall x | x in WordExtensions ensures x !in SheetsExtensions {
      assert x[|x| - 1] in {'c', 'x', 't', 'f', 'l', 'm'};
      assert x[1] in {'d', 't', 'r', 'h'};
    }
  }

  /** The answer of `open-file-in-app`. */
  datatype OpenResult = Opened(windowId: int) | Failed(error: string)

  /** A document-list entry. */
  datatype DocEntry = DocEntry(name: string, path: string, isDirectory: bool, size: int, modified: int, extension: string)

  /** The `list-documents` comparator; `localeCompare` is the parameter `compare`. */
  function Compare(a: DocEntry, b: DocEntry, compare: (string, string) -> int): int {
    if a.isDirectory != b.isDirectory then (if a.isDirectory then -1 else 1) else compare(a.name, b.name)
  }

  /** A list in the comparator's order. */
  predicate InOrder(files: seq<DocEntry>, compare: (string, string) -> int) {
    forall i, j :: 0 <= i < j < |files| ==> Compare(files[i], files[j], compare) <= 0
  }

  /** A sorted document list has every directory before every file, and names in order within each kind. */
  lemma InOrderDirectoriesFirst(files: seq<DocEntry>, compare: (string, string) -> int)
    requires InOrder(files, compare)
    ensures forall i, j :: 0 <= i < j < |files| && files[j].isDirectory ==> files[i].isDirectory
    ensures forall i, j :: 0 <= i < j < |files| && files[i].isDirectory == files[j].isDirectory ==>
      compare(files[i].name, files[j].name) <= 0
  {
    forall i, j | 0 <= i < j < |files| && files[j].isDirectory ensures files[i].isDirectory {
      assert Compare(files[i], files[j], compare) <= 0;
    }
  }

  /** `open-file-dialog`'s check: every chosen path starts with the root. */
  method AllInside(root: string, paths: seq<string>) returns (ok: bool)
    ensures ok <==> forall i :: 0 <= i < |paths| ==> Inside(root, paths[i])
  {
    var i := 0;
    while i < |paths|
      invariant 0 <= i <= |paths|
      invariant forall k :: 0 <= k < i ==> Inside(root, paths[k])
    {
      if !StartsWith(paths[i], root) {
        return false;
      }
      i := i + 1;
    }
    return true;
  }

  /** `save-file-dialog`'s check: no path was chosen, or it starts with the root. */
  function SavePathAllowed(root: string, filePath: Option<string>): bool {
    filePath.None? || filePath.value == "" || Inside(root, filePath.value)
  }

  // ---------------------------------------------------------------------------------------------
  // The console filter

  /** Whether the replaced `console.error` drops a message: the arguments joined with spaces. */
  predicate Suppressed(message: string) {
    Contains(message, "backend_impl.cc") || Contains(message, "entry_impl.cc")
    || Contains(message, "Critical error found")
    || (Contains(message, "No file for") && Utf16Length(message) < 100)
  }

  /**
   * The three cache markers drop a message of any length, `No file for` drops only a message of
   * fewer than 100 units, and a message with none of the four phrases is always printed.
   */
  lemma SuppressedCases(message: string)
    ensures Contains(message, "backend_impl.cc") || Contains(message, "entry_impl.cc") || Contains(message, "Critical error found") ==> Suppressed(message)
    ensures Utf16Length(message) >= 100 ==> (Suppressed(message) <==>
      Contains(message, "backend_impl.cc") || Contains(message, "entry_impl.cc") || Contains(message, "Critical error found"))
    ensures (!Contains(message, "No file for") && !Contains(message, "backend_impl.cc") && !Contains(message, "entry_impl.cc")
      && !Contains(message, "Critical error found")) ==> !Suppressed(message)
  {
  }

  function ConsoleMessage(args: seq<string>): string {
    Join(args, " ")
  }

  // ---------------------------------------------------------------------------------------------
  // The main process's state

  class Main {
    /** `appWindows` */
    var order: seq<int>
    var table: map<int, AppWindow>

    function View(): Windows
      reads this`order, this`table
    {
      Windows(order, table)
    }

    ghost predicate Valid()
      reads this`order, this`table
    {
      WellFormed(View())
    }

    constructor ()
      ensures Valid() && order == [] && table == map[]
    {
      order, table := [], map[];
    }

    /**
     * `createAppWindow(appType, options)`: none for an unknown type, with the registry as it was;
     * otherwise the window is filed under `now`, and `now` is returned.
     */
    method CreateAppWindow(appType: string, options: Options, now: int, window: int) returns (id: Option<int>)
      requires Valid()
      modifies this`order, this`table
      ensures Valid()
      ensures AppTable(appType).None? ==> id.None? && View() == old(View())
      ensures AppTable(appType).Some? ==> id == Some(now) && View() == Put(old(View()), now, AppWindow(window, appType, now))
    {
      var spec := WindowSpec(appType, options);
      if spec.None? {
        return None;
      }
      PutEntry(View(), now, AppWindow(window, appType, now));
      var w := Put(View(), now, AppWindow(window, appType, now));
      order, table := w.order, w.table;
      id := Some(now);
    }

    /** The `closed` event of an app window: its entry goes. */
    method WindowClosed(id: int)
      requires Valid()
      modifies this`order, this`table
      ensures Valid()
      ensures View() == Remove(old(View()), id)
    {
      RemoveEntry(View(), id);
      var w := Remove(View(), id);
      order, table := w.order, w.table;
    }

    /**
     * The desktop window's `closed` event, as written. `forEach` hands the callback each registry
     * record `{window, type, id}`, which has no `close` method, so the first record throws a
     * TypeError and `clear()` is never reached: a non-empty registry throws and keeps every entry.
     * An empty registry has nothing to visit and is cleared, which leaves it as it was.
     */
    method DesktopClosed() returns (threw: bool)
      requires Valid()
      ensures threw <==> order != []
    {
      threw := order != [];
    }

    /** What the handler evidently means: every registered window is closed, in order, and the registry emptied. */
    method DesktopClosedIntended() returns (closed: seq<int>)
      requires Valid()
      modifies this`order, this`table
      ensures Valid() && order == [] && table == map[]
      ensures |closed| == |old(order)|
      ensures forall i :: 0 <= i < |closed| ==> closed[i] == old(table)[old(order)[i]].window
    {
      closed := [];
      var i := 0;
      while i < |order|
        invariant 0 <= i <= |order| && |closed| == i
        invariant forall k :: 0 <= k < i ==> closed[k] == table[order[k]].window
      {
        closed := closed + [table[order[i]].window];
        i := i + 1;
      }
      order, table := [], map[];
    }

    /**
     * The id resolution of `app-window-minimize`, `-maximize` and `-close`, and of
     * `get-window-id`: the returned id is the registered window the message acts on, or none.
     */
    method TargetWindow(windowId: Option<int>, sender: int) returns (target: Option<int>)
      requires Valid()
      ensures var r := Resolve(View(), windowId, sender);
        target == if r.Some? && r.value in table then r else None
    {
      var t := windowId;
      if Falsy(windowId) {
        var i := 0;
        while i < |order|
          invariant 0 <= i <= |order|
          invariant FirstBySender(order, table, sender) == FirstBySender(order[i..], table, sender)
        {
          assert order[i..][1..] == order[i + 1..];
          if table[order[i]].window == sender {
            t := Some(order[i]);
            break;
          }
          i := i + 1;
        }
        assert i == |order| ==> FirstBySender(order[i..], table, sender) == None;
      }
      if t.Some? && t.value in table {
        target := t;
      } else {
        target := None;
      }
    }

    /**
     * `open-file-in-app(filePath)`: a path outside the root is refused; an extension neither app
     * takes is refused; otherwise the chosen app opens a window for the file.
     */
    method OpenFileInApp(root: string, filePath: string, now: int, window: int) returns (r: OpenResult)
      requires Valid()
      modifies this`order, this`table
      ensures Valid()
      ensures !Inside(root, filePath) ==> r == Failed("File access is restricted to the isolated environment") && View() == old(View())
      ensures Inside(root, filePath) && AppForFile(filePath).None? ==> r == Failed("Unsupported file type") && View() == old(View())
      ensures Inside(root, filePath) && AppForFile(filePath).Some? ==>
        r == Opened(now) && View() == Put(old(View()), now, AppWindow(window, AppForFile(filePath).value, now))
    {
      if !StartsWith(filePath, root) {
        return Failed("File access is restricted to the isolated environment");
      }
      var app := AppForFile(filePath);
      if app.None? {
        return Failed("Unsupported file type");
      }
      AppForFileCases(filePath);
      var id := CreateAppWindow(app.value, Options(None, None, Some(filePath)), now, window);
      r := Opened(id.value);
    }
  }
}
