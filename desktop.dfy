/**
 * The desktop shell (desktop.js): the default icon grid and the saved icon positions, the drag
 * clamp, the start menu flag and its search filter, the tray clock, the VPN retry rule and badge,
 * and the app name and icon tables.
 *
 * The clock's reading of the current date, `localStorage` and the VPN's `fetch` calls are
 * parameters; the DOM is not modelled.
 */
module Desktop {
  import opened Wrappers
  import opened Text

  // ---------------------------------------------------------------------------------------------
  // Icons

  datatype Position = Position(x: real, y: real)

  const GridCols := 4
  const IconWidth := 80
  const IconHeight := 90
  const Spacing := 30
  const StartX := 20
  const StartY := 20

  /** Where icon number `index` goes when no position is saved for it: four to a row. */
  function DefaultPosition(index: nat): Position {
    var col := index % GridCols;
    var row := index / GridCols;
    Position((StartX + col * (IconWidth + Spacing)) as real, (StartY + row * (IconHeight + Spacing)) as real)
  }

  /**
   * The grid starts at (20, 20), steps 110 to the right and 120 down, keeps four columns, and
   * gives distinct icons distinct places.
   */
  lemma DefaultPositionGrid(i: nat, j: nat)
    ensures DefaultPosition(i).x == (20 + (i % 4) * 110) as real && DefaultPosition(i).y == (20 + (i / 4) * 120) as real
    ensures 20.0 <= DefaultPosition(i).x <= 350.0 && DefaultPosition(i).y >= 20.0
    ensures i != j ==> DefaultPosition(i) != DefaultPosition(j)
  {
  }

  /**
   * The positions mapping after laying out the first `n` icons: each icon not in the saved
   * snapshot gets its default place written under its id.
   */
  function LaidOut(saved: map<string, Position>, positions: map<string, Position>, icons: seq<string>, n: nat): map<string, Position>
    requires n <= |icons|
    decreases n
  {
    if n == 0 then positions
    else
      var m := LaidOut(saved, positions, icons, n - 1);
      if icons[n - 1] in saved then m else m[icons[n - 1] := DefaultPosition(n - 1)]
  }

  /** Where icon `i` is shown: its saved position if the snapshot has one, else its grid place. */
  function Placement(saved: map<string, Position>, icons: seq<string>, i: nat): Position
    requires i < |icons|
  {
    if icons[i] in saved then saved[icons[i]] else DefaultPosition(i)
  }

  /**
   * Laying out stores a default only for ids the snapshot lacks, keeps every other entry, and
   * (ids being distinct) leaves each icon's entry at the place it is shown.
   */
  lemma LaidOutEntries(saved: map<string, Position>, icons: seq<string>, n: nat)
    requires n <= |icons|
    requires forall i, j :: 0 <= i < j < |icons| ==> icons[i] != icons[j]
    ensures forall k :: k in LaidOut(saved, saved, icons, n) <==> k in saved || k in icons[..n]
    ensures forall i :: 0 <= i < n ==> LaidOut(saved, saved, icons, n)[icons[i]] == Placement(saved, icons, i)
    ensures forall k :: k in saved ==> LaidOut(saved, saved, icons, n)[k] == saved[k]
  {
    forall k ensures k in LaidOut(saved, saved, icons, n) <==> k in saved || k in icons[..n] {
      LaidOutKey(saved, icons, n, k);
    }
    forall k | k in saved ensures LaidOut(saved, saved, icons, n)[k] == saved[k] {
      LaidOutKey(saved, icons, n, k);
    }
    forall i | 0 <= i < n ensures LaidOut(saved, saved, icons, n)[icons[i]] == Placement(saved, icons, i) {
      LaidOutIcon(saved, icons, n, i);
    }
  }

  /** One key of the layout: present when saved or laid out, and a saved entry is kept. */
  lemma {:induction false} LaidOutKey(saved: map<string, Position>, icons: seq<string>, n: nat, k: string)
    requires n <= |icons|
    ensures k in LaidOut(saved, saved, icons, n) <==> k in saved || k in icons[..n]
    ensures k in saved ==> LaidOut(saved, saved, icons, n)[k] == saved[k]
    decreases n
  {
    if n > 0 {
      LaidOutKey(saved, icons, n - 1, k);
      assert icons[..n] == icons[..n - 1] + [icons[n - 1]];
    }
  }

  /** Icon `i`'s entry after `n` icons are laid out, ids being distinct, is where it is shown. */
  lemma {:induction false} LaidOutIcon(saved: map<string, Position>, icons: seq<string>, n: nat, i: nat)
    requires i < n <= |icons|
    requires forall a, b :: 0 <= a < b < |icons| ==> icons[a] != icons[b]
    ensures icons[i] in LaidOut(saved, saved, icons, n)
    ensures LaidOut(saved, saved, icons, n)[icons[i]] == Placement(saved, icons, i)
    decreases n
  {
    LaidOutKey(saved, icons, n, icons[i]);
    assert icons[..n][i] == icons[i];
    if i < n - 1 {
      LaidOutIcon(saved, icons, n - 1, i);
      assert icons[i] != icons[n - 1];
    }
  }

  // ---------------------------------------------------------------------------------------------
  // Dragging

  /** `Math.max(20, Math.min(v, max))` */
  function DragClamp(v: real, max: real): real {
    var m := if v < max then v else max;
    if 20.0 < m then m else 20.0
  }

  /** The clamped coordinate is at least 20, at most `max` when `max` is at least 20, and a value in range is kept. */
  lemma DragClampRange(v: real, max: real)
    ensures DragClamp(v, max) >= 20.0
    ensures max >= 20.0 ==> DragClamp(v, max) <= max
    ensures 20.0 <= v <= max ==> DragClamp(v, max) == v
    ensures max < 20.0 ==> DragClamp(v, max) == 20.0
  {
  }

  /** The viewport and root icon's size a move sees; the taskbar is 48 pixels high. */
  datatype Viewport = Viewport(innerWidth: real, innerHeight: real, iconWidth: real, iconHeight: real)

  /** The icon's new place for the mouse at (`x`, `y`), the drag having started at (`sx`, `sy`) with the icon at `start`. */
  function DragTarget(start: Position, sx: real, sy: real, x: real, y: real, v: Viewport): Position {
    var maxX := v.innerWidth - v.iconWidth - 20.0;
    var maxY := v.innerHeight - 48.0 - v.iconHeight - 20.0;
    Position(DragClamp(start.x + (x - sx), maxX), DragClamp(start.y + (y - sy), maxY))
  }

  /** A dragged icon stays at least 20 pixels from the top left, and inside the area above the taskbar when it is large enough. */
  lemma DragTargetInside(start: Position, sx: real, sy: real, x: real, y: real, v: Viewport)
    ensures var p := DragTarget(start, sx, sy, x, y, v);
      p.x >= 20.0 && p.y >= 20.0
      && (v.innerWidth - v.iconWidth - 20.0 >= 20.0 ==> p.x <= v.innerWidth - v.iconWidth - 20.0)
      && (v.innerHeight - 48.0 - v.iconHeight - 20.0 >= 20.0 ==> p.y <= v.innerHeight - 48.0 - v.iconHeight - 20.0)
  {
    DragClampRange(start.x + (x - sx), v.innerWidth - v.iconWidth - 20.0);
    DragClampRange(start.y + (y - sy), v.innerHeight - 48.0 - v.iconHeight - 20.0);
  }

  // ---------------------------------------------------------------------------------------------
  // The tray clock

  /** `hours % 12 || 12` */
  function DisplayHours(hours: nat): (h: nat)
    ensures 1 <= h <= 12
    ensures h % 12 == hours % 12
  {
    if hours % 12 == 0 then 12 else hours % 12
  }

  function Meridiem(hours: nat): string {
    if hours >= 12 then "PM" else "AM"
  }

  /** The tray's time: hours on a 12-hour dial, two-digit minutes, `AM` or `PM`. */
  function TimeString(hours: nat, minutes: nat): string {
    NatToString(DisplayHours(hours)) + ":" + Pad2(minutes) + " " + Meridiem(hours)
  }

  /** The time reads back: the last two characters say `PM` exactly from noon, then come the minutes and the dial hour. */
  lemma TimeStringReads(hours: nat, minutes: nat)
    requires minutes < 60
    ensures var s := TimeString(hours, minutes);
      |s| >= 7
      && s[|s| - 2..] == (if hours >= 12 then "PM" else "AM")
      && s[|s| - 3] == ' ' && s[|s| - 6] == ':'
      && AllDigits(s[|s| - 5..|s| - 3]) && DigitsValue(s[|s| - 5..|s| - 3]) == minutes
      && AllDigits(s[..|s| - 6]) && DigitsValue(s[..|s| - 6]) == DisplayHours(hours)
  {
    var h := NatToString(DisplayHours(hours));
    var mm := Pad2(minutes);
    var s := TimeString(hours, minutes);
    assert s == h + ":" + mm + " " + Meridiem(hours);
    assert |mm| == 2;
    assert s[|s| - 2..] == Meridiem(hours);
    assert s[|s| - 5..|s| - 3] == mm;
    assert s[..|s| - 6] == h;
    Pad2Reads(minutes);
    DigitsValueOfNatToString(DisplayHours(hours));
  }

  /** Two times of day with the same display are the same time. */
  lemma TimeStringInjective(h1: nat, m1: nat, h2: nat, m2: nat)
    requires h1 < 24 && h2 < 24 && m1 < 60 && m2 < 60
    requires TimeString(h1, m1) == TimeString(h2, m2)
    ensures h1 == h2 && m1 == m2
  {
    TimeStringReads(h1, m1);
    TimeStringReads(h2, m2);
    var s := TimeString(h1, m1);
    assert (h1 >= 12) == (h2 >= 12) by {
      assert "PM"[0] != "AM"[0];
    }
    assert DigitsValue(s[..|s| - 6]) == DisplayHours(h1) == DisplayHours(h2);
    assert h1 % 12 == h2 % 12;
    assert h1 == h1 % 12 + (if h1 >= 12 then 12 else 0);
    assert h2 == h2 % 12 + (if h2 >= 12 then 12 else 0);
  }

  /** `String(n)` for the year. */
  function YearString(year: int): string {
    if year < 0 then "-" + NatToString(-year) else NatToString(year)
  }

  /** The tray's date `MM/DD/YYYY`; `month` counts from 0 as in `getMonth()`. */
  function DateString(month: nat, day: nat, year: int): string {
    Pad2(month + 1) + "/" + Pad2(day) + "/" + YearString(year)
  }

  /** The date reads back: a two-digit month counted from 1, a two-digit day, then the year. */
  lemma DateStringReads(month: nat, day: nat, year: int)
    requires month < 12 && 1 <= day <= 31
    ensures var s := DateString(month, day, year);
      |s| > 6 && s[2] == '/' && s[5] == '/'
      && AllDigits(s[..2]) && DigitsValue(s[..2]) == month + 1
      && AllDigits(s[3..5]) && DigitsValue(s[3..5]) == day
      && s[6..] == YearString(year)
  {
    var s := DateString(month, day, year);
    assert s[..2] == Pad2(month + 1);
    assert s[3..5] == Pad2(day);
    Pad2Reads(month + 1);
    Pad2Reads(day);
  }

  // ---------------------------------------------------------------------------------------------
  // The start-menu search

  /** An entry of the document list the search looks through. */
  datatype DocFile = DocFile(name: string, path: string, isDirectory: bool, extension: string)

  /** A `.start-menu-item` of the start menu: its title and subtitle. */
  datatype MenuItem = MenuItem(title: string, subtitle: string)

  /** The item a listed file result adds to the menu: the file's name over the subtitle `Document`. */
  function FileItem(f: DocFile): MenuItem {
    MenuItem(f.name, "Document")
  }

  /** What `querySelectorAll('.start-menu-item')` finds: the apps, then the file results still listed. */
  function MenuItems(apps: seq<MenuItem>, listed: seq<DocFile>): (r: seq<MenuItem>)
    ensures |r| == |apps| + |listed|
    ensures forall i :: 0 <= i < |apps| ==> r[i] == apps[i]
    ensures forall i :: 0 <= i < |listed| ==> r[|apps| + i] == FileItem(listed[i])
  {
    apps + seq(|listed|, i requires 0 <= i < |listed| => FileItem(listed[i]))
  }

  /** What the input handler searches for: the text lower-cased and trimmed. */
  function SearchTerm(raw: string): string {
    Trim(ToLower(raw))
  }

  predicate FileMatches(f: DocFile, term: string) {
    !f.isDirectory && Contains(ToLower(f.name), term)
  }

  predicate ItemMatches(item: MenuItem, term: string) {
    Contains(ToLower(item.title), term) || Contains(ToLower(item.subtitle), term)
  }

  /** `allFiles.filter(...)`: the files, not directories, whose lower-cased name contains the term. */
  function MatchingFiles(files: seq<DocFile>, term: string): (r: seq<DocFile>)
    ensures |r| <= |files|
    decreases |files|
  {
    if files == [] then []
    else (if FileMatches(files[0], term) then [files[0]] else []) + MatchingFiles(files[1..], term)
  }

  lemma {:induction false} MatchingFilesKeeps(files: seq<DocFile>, term: string)
    ensures forall f :: f in MatchingFiles(files, term) <==> f in files && FileMatches(f, term)
    decreases |files|
  {
    if files != [] {
      MatchingFilesKeeps(files[1..], term);
      assert files == [files[0]] + files[1..];
    }
  }

  /** The start menu after `performSearch(term)`; `results` is none when the earlier file list is left in place. */
  datatype SearchView = SearchView(itemShown: seq<bool>, appsShown: bool, filesShown: bool, results: Option<seq<DocFile>>)

  /** The search over the menu items `items` the query finds. */
  function SearchOver(items: seq<MenuItem>, files: seq<DocFile>, term: string): SearchView {
    if term == "" then SearchView(seq(|items|, _ => true), true, false, None)
    else
      var shown := seq(|items|, i requires 0 <= i < |items| => ItemMatches(items[i], term));
      var anyApp := exists i :: 0 <= i < |items| && ItemMatches(items[i], term);
      var matches := MatchingFiles(files, term);
      var results := if |matches| > 5 then matches[..5] else matches;
      if anyApp || |matches| > 0 then SearchView(shown, anyApp, |matches| > 0, Some(results))
      else SearchView(shown, true, false, Some(results))
  }

  /**
   * `performSearch(term)` as written, with `listed` the file results an earlier search left in
   * the files pane: the query that computes `hasAppMatches` finds those too.
   */
  function PerformSearch(apps: seq<MenuItem>, listed: seq<DocFile>, files: seq<DocFile>, term: string): SearchView {
    SearchOver(MenuItems(apps, listed), files, term)
  }

  /** `performSearch(term)` as evidently meant: only the apps decide whether the apps pane shows. */
  function PerformSearchIntended(apps: seq<MenuItem>, files: seq<DocFile>, term: string): SearchView {
    SearchOver(apps, files, term)
  }

  /**
   * An empty term shows every app and hides the files. Otherwise an app shows exactly when its
   * title or subtitle contains the term, at most five files are listed, each a matching file,
   * and they are the first matches in order; the files pane shows exactly when some file
   * matches, and the apps pane is hidden only when files match and no app does.
   */
  lemma PerformSearchShape(items: seq<MenuItem>, files: seq<DocFile>, term: string)
    ensures var v := SearchOver(items, files, term);
      |v.itemShown| == |items|
      && (term == "" ==> (forall i :: 0 <= i < |items| ==> v.itemShown[i]) && v.appsShown && !v.filesShown && v.results == None)
      && (term != "" ==>
        (forall i :: 0 <= i < |items| ==> (v.itemShown[i] <==> ItemMatches(items[i], term)))
        && v.results.Some? && |v.results.value| <= 5
        && (forall f :: f in v.results.value ==> f in files && FileMatches(f, term))
        && v.results.value == MatchingFiles(files, term)[..|v.results.value|]
        && (|MatchingFiles(files, term)| <= 5 ==> v.results.value == MatchingFiles(files, term))
        && (v.filesShown <==> exists f :: f in files && FileMatches(f, term))
        && (!v.appsShown <==> v.filesShown && forall i :: 0 <= i < |items| ==> !ItemMatches(items[i], term)))
  {
    MatchingFilesKeeps(files, term);
    var matches := MatchingFiles(files, term);
    if |matches| > 0 {
      assert matches[0] in matches;
    }
    if term != "" {
      var results := SearchOver(items, files, term).results.value;
      forall f | f in results ensures f in matches {
        var k :| 0 <= k < |results| && results[k] == f;
        assert matches[k] == f;
      }
    }
  }

  /**
   * As written, a search hides the apps pane exactly when a file matches and no item the query
   * finds matches: neither an app nor a file result still listed from the search before.
   */
  lemma PerformSearchSeesListed(apps: seq<MenuItem>, listed: seq<DocFile>, files: seq<DocFile>, term: string)
    requires term != ""
    ensures var v := PerformSearch(apps, listed, files, term);
      |v.itemShown| == |apps| + |listed|
      && (!v.appsShown <==>
            (exists f :: f in files && FileMatches(f, term))
            && (forall i :: 0 <= i < |apps| ==> !ItemMatches(apps[i], term))
            && (forall i :: 0 <= i < |listed| ==> !ItemMatches(FileItem(listed[i]), term)))
  {
    var items := MenuItems(apps, listed);
    PerformSearchShape(items, files, term);
    if (forall i :: 0 <= i < |apps| ==> !ItemMatches(apps[i], term))
      && (forall i :: 0 <= i < |listed| ==> !ItemMatches(FileItem(listed[i]), term)) {
      forall i | 0 <= i < |items| ensures !ItemMatches(items[i], term) {
        if i >= |apps| { assert items[i] == FileItem(listed[i - |apps|]); }
      }
    }
  }

  /** As meant, the apps pane is hidden exactly when a file matches and no app does. */
  lemma PerformSearchIntendedApps(apps: seq<MenuItem>, files: seq<DocFile>, term: string)
    requires term != ""
    ensures var v := PerformSearchIntended(apps, files, term);
      !v.appsShown <==>
        (exists f :: f in files && FileMatches(f, term)) && forall i :: 0 <= i < |apps| ==> !ItemMatches(apps[i], term)
  {
    PerformSearchShape(apps, files, term);
  }

  /**
   * As written, a listed file result counts as an app match. A term that `document` contains,
   * such as `doc`, matches every listed result's subtitle: with results still listed, a matching
   * file and no matching app, the apps pane stays shown, empty, where only the file list should.
   */
  lemma StaleResultKeepsAppsPane(apps: seq<MenuItem>, listed: seq<DocFile>, files: seq<DocFile>, term: string)
    requires term != "" && listed != [] && Contains("document", term)
    requires forall i :: 0 <= i < |apps| ==> !ItemMatches(apps[i], term)
    requires exists f :: f in files && FileMatches(f, term)
    ensures PerformSearch(apps, listed, files, term).appsShown
    ensures !PerformSearchIntended(apps, files, term).appsShown
  {
    var items := MenuItems(apps, listed);
    assert ToLower("Document") == "document";
    assert items[|apps|] == FileItem(listed[0]);
    assert ItemMatches(items[|apps|], term);
    PerformSearchShape(apps, files, term);
  }

  // ---------------------------------------------------------------------------------------------
  // Apps

  const AppNames: map<string, string> := map["browser" := "Omega Browser", "terminal" := "Terminal"]

  /** The icon strings, code point for code point as they appear in the file. */
  const AppIcons: map<string, string> := map[
    "browser" := "\U{F8FF}\U{FC}\U{E5}\U{EA}",
    "terminal" := "\U{F8FF}\U{FC}\U{ED}\U{AA}"
  ]

  const DefaultIcon := "\U{F8FF}\U{FC}\U{EC}\U{D1}"

  /** `getAppName(appType)`: the name in the table, or the type itself. */
  function AppName(appType: string): (name: string)
    ensures appType in AppNames ==> name == AppNames[appType]
    ensures appType !in AppNames ==> name == appType
  {
    if appType in AppNames && AppNames[appType] != "" then AppNames[appType] else appType
  }

  /** `getAppIcon(appType)`: the icon in the table, or the document icon. */
  function AppIcon(appType: string): (icon: string)
    ensures appType in AppIcons ==> icon == AppIcons[appType]
    ensures appType !in AppIcons ==> icon == DefaultIcon
    ensures icon != ""
  {
    if appType in AppIcons && AppIcons[appType] != "" then AppIcons[appType] else DefaultIcon
  }

  // ---------------------------------------------------------------------------------------------
  // VPN

  const MaxVpnRetries := 3

  function Pow2(e: nat): (p: nat)
    ensures p >= 1
  {
    if e == 0 then 1 else 2 * Pow2(e - 1)
  }

  /** The wait before retry number `attempt + 1`: `Math.min(1000 * 2 ** attempt, 5000)` milliseconds. */
  function RetryDelay(attempt: nat): nat {
    var d := 1000 * Pow2(attempt);
    if d < 5000 then d else 5000
  }

  /** What a failed fetch at `attempt` schedules: another try after a delay, until there have been three. */
  function NextRetry(attempt: nat): Option<(nat, nat)> {
    if attempt < MaxVpnRetries then Some((RetryDelay(attempt), attempt + 1)) else None
  }

  /** The delays of all retries that follow a failed fetch at `attempt` when every one fails. */
  function RetrySchedule(attempt: nat): seq<nat>
    decreases MaxVpnRetries - attempt
  {
    match NextRetry(attempt)
    case None => []
    case Some((delay, next)) => [delay] + RetrySchedule(next)
  }

  /** The delay doubles from one second and never passes five. */
  lemma RetryDelayBounds(attempt: nat)
    ensures 1000 <= RetryDelay(attempt) <= 5000
    ensures attempt >= 1 && RetryDelay(attempt - 1) < 5000 ==> RetryDelay(attempt) <= 2 * RetryDelay(attempt - 1)
  {
  }

  /** A fetch that keeps failing is retried three times, after 1, 2 and 4 seconds, and then given up. */
  lemma RetryScheduleFromStart()
    ensures RetrySchedule(0) == [1000, 2000, 4000]
    ensures NextRetry(MaxVpnRetries) == None
  {
    assert Pow2(2) == 4;
    assert RetrySchedule(3) == [];
    assert RetrySchedule(2) == [4000];
    assert RetrySchedule(1) == [2000, 4000];
  }

  /** What the VPN panel knows; an empty field stands for `null`. */
  datatype VpnInfo = VpnInfo(ip: string, location: string, country: string, isp: string, connected: bool, isFakeLocation: bool)

  /** The top badge's text; `selected` and `chosenReal` say whether those choices are stored. */
  function BadgeLabel(info: VpnInfo, selected: bool, chosenReal: bool): string {
    if info.connected then
      if info.country != "" && info.location != "" then info.country + " \U{201A}\U{C4}\U{A2} " + info.ip else "Connected"
    else if !selected && !chosenReal then "Select Location"
    else "Disconnected"
  }

  /**
   * The badge asks for a location exactly when the VPN is down and no choice is stored; when up
   * with a known place it leads with the country.
   */
  lemma BadgeLabelCases(info: VpnInfo, selected: bool, chosenReal: bool)
    ensures BadgeLabel(info, selected, chosenReal) == "Select Location" <==> !info.connected && !selected && !chosenReal
    ensures BadgeLabel(info, selected, chosenReal) == "Disconnected" <==> !info.connected && (selected || chosenReal)
    ensures info.connected && info.country != "" && info.location != "" ==>
      StartsWith(BadgeLabel(info, selected, chosenReal), info.country) && EndsWith(BadgeLabel(info, selected, chosenReal), info.ip)
  {
    var l := BadgeLabel(info, selected, chosenReal);
    if info.connected && info.country != "" && info.location != "" {
      assert l[..|info.country|] == info.country;
      assert l[|l| - |info.ip|..] == info.ip;
      assert l[|info.country| + 1] == '\U{201A}';
      assert '\U{201A}' !in "Select Location" && '\U{201A}' !in "Disconnected";
    }
    assert "Connected" != "Select Location" && "Connected" != "Disconnected" && "Select Location" != "Disconnected";
  }

  // ---------------------------------------------------------------------------------------------
  // The desktop's state

  class Shell {
    /** The start menu's open flag. */
    var startMenuOpen: bool
    /** The `desktopIconPositions` mapping kept in local storage. */
    var positions: map<string, Position>
    var vpnRetryCount: nat

    constructor (stored: map<string, Position>)
      ensures !startMenuOpen && positions == stored && vpnRetryCount == 0
    {
      startMenuOpen, positions, vpnRetryCount := false, stored, 0;
    }

    method ToggleStartMenu()
      modifies this`startMenuOpen
      ensures startMenuOpen == !old(startMenuOpen)
    {
      startMenuOpen := !startMenuOpen;
    }

    method CloseStartMenu()
      modifies this`startMenuOpen
      ensures !startMenuOpen
    {
      startMenuOpen := false;
    }

    /** `saveIconPosition(iconId, x, y)`: only that icon's entry changes. */
    method SaveIconPosition(iconId: string, p: Position)
      modifies this`positions
      ensures positions == old(positions)[iconId := p]
      ensures forall k :: k != iconId && k in old(positions) ==> k in positions && positions[k] == old(positions)[k]
    {
      positions := positions[iconId := p];
    }

    /**
     * `loadIconPositions()`: each icon, in document order, is shown at its saved position or at
     * its grid place, and grid places are saved. The saved positions are read once, before the loop.
     */
    method LoadIconPositions(icons: seq<string>) returns (shown: seq<Position>)
      modifies this`positions
      ensures |shown| == |icons|
      ensures forall i :: 0 <= i < |icons| ==> shown[i] == Placement(old(positions), icons, i)
      ensures positions == LaidOut(old(positions), old(positions), icons, |icons|)
    {
      var saved := positions;
      shown := [];
      var i := 0;
      while i < |icons|
        invariant 0 <= i <= |icons|
        invariant |shown| == i
        invariant forall k :: 0 <= k < i ==> shown[k] == Placement(saved, icons, k)
        invariant positions == LaidOut(saved, saved, icons, i)
      {
        if icons[i] in saved {
          shown := shown + [saved[icons[i]]];
        } else {
          var p := DefaultPosition(i);
          shown := shown + [p];
          SaveIconPosition(icons[i], p);
        }
        i := i + 1;
      }
    }

    /** A mouse or touch move while dragging: the icon goes to the clamped place, which is saved. */
    method DragMove(iconId: string, start: Position, sx: real, sy: real, x: real, y: real, v: Viewport) returns (p: Position)
      modifies this`positions
      ensures p == DragTarget(start, sx, sy, x, y, v)
      ensures positions == old(positions)[iconId := p]
    {
      p := DragTarget(start, sx, sy, x, y, v);
      SaveIconPosition(iconId, p);
    }

    /**
     * A VPN fetch at `attempt` failed: a retry is scheduled, and counted, while fewer than three
     * have been made; otherwise none.
     */
    method VpnFetchFailed(attempt: nat) returns (retry: Option<(nat, nat)>)
      modifies this`vpnRetryCount
      ensures retry == NextRetry(attempt)
      ensures vpnRetryCount == if attempt < MaxVpnRetries then old(vpnRetryCount) + 1 else old(vpnRetryCount)
    {
      retry := NextRetry(attempt);
      if attempt < MaxVpnRetries {
        vpnRetryCount := vpnRetryCount + 1;
      }
    }

    /** A fetch succeeded, or the refresh button was pressed: the count starts again. */
    method VpnResetRetries()
      modifies this`vpnRetryCount
      ensures vpnRetryCount == 0
    {
      vpnRetryCount := 0;
    }
  }
}
