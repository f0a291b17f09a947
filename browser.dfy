/**
 * The browser window (renderer.js): the tab list and the active tab, the address-bar rule that
 * tells a URL from a search, the newest-first history and downloads lists with their caps,
 * bookmarks, the zoom clamp and the checks the wallet forms make before calling the wallet.
 *
 * `Date.now()` is a parameter `now`; `localStorage` reads are constructor parameters and its
 * writes, the DOM and the webviews are not modelled.
 */
module Browser {
  import opened Wrappers
  import opened Text
  import opened JsNumber

  // ---------------------------------------------------------------------------------------------
  // Search engines and `encodeURIComponent`

  datatype Engine = Engine(name: string, url: string, search: string)

  /** The `searchEngines` table. */
  const Engines: map<string, Engine> := map[
    "duckduckgo" := Engine("DuckDuckGo", "https://duckduckgo.com", "https://duckduckgo.com/?q="),
    "startpage" := Engine("Startpage", "https://www.startpage.com", "https://www.startpage.com/sp/search?query="),
    "searx" := Engine("SearX", "https://searx.org", "https://searx.org/search?q=")
  ]

  /** The engine chosen when there is no stored choice: `localStorage.getItem('searchEngine') || 'duckduckgo'`. */
  function StoredEngine(stored: Option<string>): (key: string)
    ensures stored.Some? && stored.value != "" ==> key == stored.value
    ensures stored.None? || stored.value == "" ==> key == "duckduckgo"
  {
    if stored.Some? && stored.value != "" then stored.value else "duckduckgo"
  }

  /** Every engine's home page and search page are `https://` addresses. */
  lemma EnginesSecure(key: string)
    requires key in Engines
    ensures StartsWith(Engines[key].url, "https://") && StartsWith(Engines[key].search, "https://")
  {
    assert key == "duckduckgo" || key == "startpage" || key == "searx";
  }

  /** The characters `encodeURIComponent` leaves as they are. */
  predicate Unreserved(c: char) {
    ('A' <= c <= 'Z') || ('a' <= c <= 'z') || ('0' <= c <= '9')
    || c == '-' || c == '_' || c == '.' || c == '!' || c == '~' || c == '*' || c == '\'' || c == '(' || c == ')'
  }

  predicate IsHexUpper(c: char) { ('0' <= c <= '9') || ('A' <= c <= 'F') }

  /** The characters `encodeURIComponent` can produce. */
  predicate UriSafe(c: char) { Unreserved(c) || c == '%' }

  function HexDigit(d: nat): (c: char)
    requires d < 16
    ensures IsHexUpper(c)
  {
    if d < 10 then DigitChar(d) else ('A' as int + d - 10) as char
  }

  /** The UTF-8 encoding of one Unicode scalar value. */
  function Utf8(c: char): (bytes: seq<nat>)
    ensures 1 <= |bytes| <= 4
    ensures forall k :: 0 <= k < |bytes| ==> bytes[k] < 256
  {
    var cp := c as int;
    if cp < 0x80 then [cp]
    else if cp < 0x800 then [0xC0 + cp / 64, 0x80 + cp % 64]
    else if cp < 0x10000 then [0xE0 + cp / 4096, 0x80 + (cp / 64) % 64, 0x80 + cp % 64]
    else [0xF0 + cp / 262144, 0x80 + (cp / 4096) % 64, 0x80 + (cp / 64) % 64, 0x80 + cp % 64]
  }

  /** Each byte written as `%` and two upper-case hexadecimal digits. */
  function Escape(bytes: seq<nat>): (s: string)
    requires forall k :: 0 <= k < |bytes| ==> bytes[k] < 256
    ensures |s| == 3 * |bytes|
    ensures forall i :: 0 <= i < |s| ==> s[i] == '%' || IsHexUpper(s[i])
  {
    if bytes == [] then []
    else
      var b := bytes[|bytes| - 1];
      Escape(bytes[..|bytes| - 1]) + ['%', HexDigit(b / 16), HexDigit(b % 16)]
  }

  /** `encodeURIComponent(s)`. */
  function EncodeUri(s: string): (r: string)
    ensures |r| >= |s|
    decreases |s|
  {
    if s == [] then []
    else
      var c := s[|s| - 1];
      EncodeUri(s[..|s| - 1]) + (if Unreserved(c) then [c] else Escape(Utf8(c)))
  }

  /** The encoding consists of unreserved characters, `%` and hexadecimal digits: no space survives it. */
  lemma {:induction false} EncodeUriSafe(s: string)
    ensures forall i :: 0 <= i < |EncodeUri(s)| ==> UriSafe(EncodeUri(s)[i])
    decreases |s|
  {
    if s != [] {
      EncodeUriSafe(s[..|s| - 1]);
    }
  }

  /** Text made only of unreserved characters is left unchanged. */
  lemma {:induction false} EncodeUriUnreserved(s: string)
    requires forall i :: 0 <= i < |s| ==> Unreserved(s[i])
    ensures EncodeUri(s) == s
    decreases |s|
  {
    if s != [] {
      EncodeUriUnreserved(s[..|s| - 1]);
      assert s == s[..|s| - 1] + [s[|s| - 1]];
    }
  }

  /** `getHomeUrl()`: none when the stored engine is not in the table (the lookup throws). */
  function HomeUrl(engine: string): Option<string> {
    if engine in Engines then Some(Engines[engine].url) else None
  }

  /** `getSearchUrl(query)` */
  function SearchUrl(engine: string, query: string): Option<string> {
    if engine in Engines then Some(Engines[engine].search + EncodeUri(query)) else None
  }

  // ---------------------------------------------------------------------------------------------
  // The address bar

  /**
   * Where `navigateToAddress(input)` goes. The dotted-quad pattern the source also tests is
   * subsumed by the test for a dot.
   */
  function Destination(engine: string, input: string): Option<string> {
    if input == "" then HomeUrl(engine)
    else if StartsWith(input, "http://") || StartsWith(input, "https://") then Some(input)
    else if (Contains(input, ".") || StartsWith(input, "localhost")) && !Contains(input, " ") then
      Some("https://" + input)
    else SearchUrl(engine, input)
  }

  /** Whether the address bar takes the input for a search. */
  predicate IsSearch(input: string) {
    input != "" && !StartsWith(input, "http://") && !StartsWith(input, "https://")
    && (Contains(input, " ") || (!Contains(input, ".") && !StartsWith(input, "localhost")))
  }

  /** Text already starting with `http://` or `https://` is used as it is. */
  lemma DestinationKeepsUrls(engine: string, input: string)
    requires StartsWith(input, "http://") || StartsWith(input, "https://")
    ensures Destination(engine, input) == Some(input)
  {
  }

  /**
   * With a known engine every destination is an `http://` or `https://` address; a search goes to
   * the engine's search page followed by the encoded query, which contains no space.
   */
  lemma DestinationShape(engine: string, input: string)
    requires engine in Engines
    ensures Destination(engine, input).Some?
    ensures var u := Destination(engine, input).value;
      StartsWith(u, "http://") || StartsWith(u, "https://")
    ensures IsSearch(input) <==> Destination(engine, input) == SearchUrl(engine, input)
    ensures IsSearch(input) ==> var u := Destination(engine, input).value;
      StartsWith(u, Engines[engine].search)
      && (forall i :: |Engines[engine].search| <= i < |u| ==> u[i] != ' ')
  {
    EnginesSecure(engine);
    var e := Engines[engine];
    var u := e.search + EncodeUri(input);
    assert u[..|e.search|] == e.search;
    assert u[..8] == e.search[..8];
    EncodeUriSafe(input);
    forall i | |e.search| <= i < |u| ensures u[i] != ' ' {
      assert u[i] == EncodeUri(input)[i - |e.search|];
    }
    var v := "https://" + input;
    assert v[..8] == "https://";
    assert |e.search| > 8;
    assert v != u;
  }

  // ---------------------------------------------------------------------------------------------
  // Capped, newest-first lists and filters

  /** `list.unshift(item)` followed by `list = list.slice(0, cap)` when it grew past `cap`. */
  function Prepend<T>(list: seq<T>, item: T, cap: nat): (r: seq<T>)
    requires cap >= 1
    ensures |r| == if |list| + 1 <= cap then |list| + 1 else cap
    ensures r[0] == item
    ensures forall i :: 1 <= i < |r| ==> r[i] == list[i - 1]
  {
    var l := [item] + list;
    if |l| > cap then l[..cap] else l
  }

  /** A history entry or bookmark; `id` and `timestamp` are `Date.now()` when it was made. */
  datatype Visit = Visit(id: int, url: string, title: string, timestamp: int)

  datatype Download = Download(id: int, url: string, filename: string, timestamp: int, status: string)

  /** `list.filter(item => item.id !== id)` */
  function WithoutId(list: seq<Visit>, id: int): (r: seq<Visit>)
    ensures |r| <= |list|
    decreases |list|
  {
    if list == [] then []
    else (if list[0].id != id then [list[0]] else []) + WithoutId(list[1..], id)
  }

  /** The filter removes every entry with that id and no other. */
  lemma {:induction false} WithoutIdKeeps(list: seq<Visit>, id: int)
    ensures forall v :: v in WithoutId(list, id) <==> v in list && v.id != id
    decreases |list|
  {
    if list != [] {
      WithoutIdKeeps(list[1..], id);
      assert list == [list[0]] + list[1..];
    }
  }

  /** With no entry under that id, the filter keeps the list as it is, in order. */
  lemma {:induction false} WithoutIdAbsent(list: seq<Visit>, id: int)
    requires forall k :: 0 <= k < |list| ==> list[k].id != id
    ensures WithoutId(list, id) == list
    decreases |list|
  {
    if list != [] {
      WithoutIdAbsent(list[1..], id);
      assert list == [list[0]] + list[1..];
    }
  }

  /** The filter keeps the order: filtering a list made of two parts filters each in turn. */
  lemma {:induction false} WithoutIdAppend(a: seq<Visit>, b: seq<Visit>, id: int)
    ensures WithoutId(a + b, id) == WithoutId(a, id) + WithoutId(b, id)
    decreases |a|
  {
    if a == [] {
      assert a + b == b;
    } else {
      WithoutIdAppend(a[1..], b, id);
      var head := if a[0].id != id then [a[0]] else [];
      assert (a + b)[0] == a[0];
      assert (a + b)[1..] == a[1..] + b;
      assert WithoutId(a + b, id) == head + (WithoutId(a[1..], id) + WithoutId(b, id));
      assert WithoutId(a, id) == head + WithoutId(a[1..], id);
      assert head + (WithoutId(a[1..], id) + WithoutId(b, id)) == (head + WithoutId(a[1..], id)) + WithoutId(b, id);
    }
  }

  /** The download's name: `filename || url.split('/').pop() || 'download'`. */
  function DownloadName(url: string, filename: string): string {
    if filename != "" then filename
    else if AfterLast(url, {'/'}) != "" then AfterLast(url, {'/'})
    else "download"
  }

  /** The name is never empty; a given name wins; otherwise it is the URL's last segment, free of `/`. */
  lemma DownloadNameShape(url: string, filename: string)
    ensures DownloadName(url, filename) != ""
    ensures filename != "" ==> DownloadName(url, filename) == filename
    ensures filename == "" && DownloadName(url, filename) != "download" ==>
      EndsWith(url, DownloadName(url, filename))
      && forall i :: 0 <= i < |DownloadName(url, filename)| ==> DownloadName(url, filename)[i] != '/'
  {
    AfterLastSuffix(url, {'/'});
  }

  // ---------------------------------------------------------------------------------------------
  // Zoom

  /** `a < b` for numbers that are not NaN. */
  predicate Below(a: Num, b: Num)
    requires !a.NaN? && !b.NaN?
  {
    match (a, b)
    case (Infinity(na), Infinity(nb)) => na && !nb
    case (Infinity(na), Finite(_)) => na
    case (Finite(_), Infinity(nb)) => !nb
    case (Finite(x), Finite(y)) => x < y
  }

  /** `Math.min(a, b)` (signed zeros are not modelled). */
  function MathMin(a: Num, b: Num): Num {
    if a.NaN? || b.NaN? then NaN else if Below(b, a) then b else a
  }

  /** `Math.max(a, b)` */
  function MathMax(a: Num, b: Num): Num {
    if a.NaN? || b.NaN? then NaN else if Below(a, b) then b else a
  }

  /** The value `updateZoom(zoom)` stores: `Math.max(0.25, Math.min(5.0, zoom))`. */
  function ZoomClamp(zoom: Num): Num {
    MathMax(Finite(0.25), MathMin(Finite(5.0), zoom))
  }

  /**
   * Any number but NaN is brought into [0.25, 5.0], and one already there is unchanged; NaN
   * (a stored zoom that does not read as a number) stays NaN.
   */
  lemma ZoomClampRange(zoom: Num)
    ensures zoom.NaN? <==> ZoomClamp(zoom).NaN?
    ensures !zoom.NaN? ==> ZoomClamp(zoom).Finite? && 0.25 <= ZoomClamp(zoom).r <= 5.0
    ensures zoom.Finite? && 0.25 <= zoom.r <= 5.0 ==> ZoomClamp(zoom) == zoom
    ensures ZoomClamp(ZoomClamp(zoom)) == ZoomClamp(zoom)
  {
  }

  // ---------------------------------------------------------------------------------------------
  // Wallet forms

  datatype Verdict = Accepted | Rejected(message: string)

  /** The checks of the create-wallet form, made before the wallet is asked for anything. */
  function CreateWalletCheck(password: string, confirm: string): Verdict {
    if password == "" || Utf16Length(password) < 8 then Rejected("Password must be at least 8 characters")
    else if password != confirm then Rejected("Passwords do not match")
    else Accepted
  }

  /** The create form goes ahead exactly when the password has at least 8 units and is confirmed. */
  lemma CreateWalletAccepts(password: string, confirm: string)
    ensures CreateWalletCheck(password, confirm) == Accepted <==> Utf16Length(password) >= 8 && password == confirm
  {
  }

  /** The checks of the import form; the key is trimmed first. */
  function ImportWalletCheck(privateKey: string, password: string): Verdict {
    if Trim(privateKey) == "" || password == "" then Rejected("Please fill in all fields")
    else if Utf16Length(password) < 8 then Rejected("Password must be at least 8 characters")
    else Accepted
  }

  /** The import form goes ahead exactly when the trimmed key is not empty and the password has at least 8 units. */
  lemma ImportWalletAccepts(privateKey: string, password: string)
    ensures ImportWalletCheck(privateKey, password) == Accepted <==> Trim(privateKey) != "" && Utf16Length(password) >= 8
  {
  }

  // ---------------------------------------------------------------------------------------------
  // Tabs

  datatype Tab = Tab(id: int, url: string, title: string)

  /** `tabs.findIndex(t => t.id === id)` */
  function FindTab(tabs: seq<Tab>, id: int): (i: int)
    ensures -1 <= i < |tabs|
    ensures i == -1 <==> forall k :: 0 <= k < |tabs| ==> tabs[k].id != id
    ensures 0 <= i ==> tabs[i].id == id && forall k :: 0 <= k < i ==> tabs[k].id != id
    decreases |tabs|
  {
    if tabs == [] then -1
    else if tabs[0].id == id then 0
    else
      var j := FindTab(tabs[1..], id);
      if j == -1 then -1 else j + 1
  }

  predicate HasTab(tabs: seq<Tab>, id: int) {
    exists k :: 0 <= k < |tabs| && tabs[k].id == id
  }

  /** Tab ids increase along the list: so no two tabs share an id. */
  predicate IdsIncreasing(tabs: seq<Tab>) {
    forall i, j :: 0 <= i < j < |tabs| ==> tabs[i].id < tabs[j].id
  }

  /** Ids increase and all are below the counter. */
  predicate IdsBelow(tabs: seq<Tab>, counter: int) {
    IdsIncreasing(tabs) && forall i :: 0 <= i < |tabs| ==> tabs[i].id < counter
  }

  /** The tab list and active tab after `closeTab(id)`. */
  function Closed(tabs: seq<Tab>, active: int, id: int): (seq<Tab>, int) {
    var i := FindTab(tabs, id);
    if |tabs| <= 1 || i == -1 then (tabs, active)
    else
      var rest := tabs[..i] + tabs[i + 1..];
      (rest, if active == id then rest[if i - 1 < 0 then 0 else i - 1].id else active)
  }

  /**
   * Closing does nothing to the last tab or to an absent id. Otherwise exactly that tab goes, the
   * others keep their order, there is one tab fewer, the active tab is kept unless it was the one
   * closed, and in that case its left neighbour (or the new first tab) becomes active.
   */
  lemma ClosedShape(tabs: seq<Tab>, active: int, id: int)
    requires IdsIncreasing(tabs)
    ensures var (rest, a) := Closed(tabs, active, id);
      (|tabs| <= 1 || !HasTab(tabs, id) ==> rest == tabs && a == active)
      && (|tabs| >= 2 && HasTab(tabs, id) ==>
        |rest| == |tabs| - 1 && !HasTab(rest, id)
        && (forall t :: t in rest <==> t in tabs && t.id != id)
        && (active != id ==> a == active && (HasTab(tabs, active) ==> HasTab(rest, active)))
        && (active == id ==>
              HasTab(rest, a) && a == (if FindTab(tabs, id) == 0 then tabs[1].id else tabs[FindTab(tabs, id) - 1].id)))
  {
    var i := FindTab(tabs, id);
    if i == -1 {
      assert !HasTab(tabs, id);
    } else if |tabs| >= 2 {
      assert HasTab(tabs, id) && tabs[i].id == id;
      RemovedTab(tabs, i);
      var rest := tabs[..i] + tabs[i + 1..];
      var j := if i == 0 then 0 else i - 1;
      assert Closed(tabs, active, id) == (rest, if active == id then rest[j].id else active);
      assert HasTab(rest, rest[j].id);
      if active != id && HasTab(tabs, active) {
        var k :| 0 <= k < |tabs| && tabs[k].id == active;
        assert tabs[k] in rest;
      }
    }
  }

  /** Removing the tab at `i`, whose id no other tab has: the tabs left, and the one before it. */
  lemma RemovedTab(tabs: seq<Tab>, i: nat)
    requires IdsIncreasing(tabs) && 2 <= |tabs| && i < |tabs|
    ensures var rest := tabs[..i] + tabs[i + 1..];
      |rest| == |tabs| - 1 && !HasTab(rest, tabs[i].id)
      && (forall t :: t in rest <==> t in tabs && t.id != tabs[i].id)
      && rest[if i == 0 then 0 else i - 1] == tabs[if i == 0 then 1 else i - 1]
  {
    var id := tabs[i].id;
    var rest := tabs[..i] + tabs[i + 1..];
    assert forall k :: 0 <= k < |rest| ==> rest[k] == if k < i then tabs[k] else tabs[k + 1];
    forall t ensures t in rest <==> t in tabs && t.id != id {
      if t in tabs && t.id != id {
        var k :| 0 <= k < |tabs| && tabs[k] == t;
        if k < i { assert rest[k] == t; } else { assert k != i; assert rest[k - 1] == t; }
      }
    }
  }

  /** An active tab that exists still exists (possibly as another tab) after closing. */
  lemma ClosedKeepsActive(tabs: seq<Tab>, active: int, id: int)
    requires IdsIncreasing(tabs)
    ensures HasTab(tabs, active) ==> HasTab(Closed(tabs, active, id).0, Closed(tabs, active, id).1)
  {
    ClosedShape(tabs, active, id);
  }

  /** Removing one tab keeps the ids increasing and below the counter. */
  lemma RemovedBelow(tabs: seq<Tab>, i: nat, counter: int)
    requires i < |tabs| && IdsBelow(tabs, counter)
    ensures IdsBelow(tabs[..i] + tabs[i + 1..], counter)
  {
    var rest := tabs[..i] + tabs[i + 1..];
    assert forall k :: 0 <= k < |rest| ==> rest[k] == if k < i then tabs[k] else tabs[k + 1];
  }

  /** The live state of renderer.js: tabs, history, bookmarks, downloads, zoom and search engine. */
  class Window {
    var tabs: seq<Tab>
    var activeTabId: int
    var tabIdCounter: int
    var history: seq<Visit>
    var bookmarks: seq<Visit>
    var downloads: seq<Download>
    var currentZoom: Num
    var currentSearchEngine: string

    /** Ids are unique and increasing, and a new tab's id has never been used. */
    predicate Valid()
      reads this
    {
      IdsBelow(tabs, tabIdCounter)
    }

    /** The page loads with no tab and the stored lists, zoom and engine. */
    constructor (storedHistory: seq<Visit>, storedBookmarks: seq<Visit>, storedDownloads: seq<Download>,
                 storedZoom: Option<string>, storedEngine: Option<string>)
      ensures Valid()
      ensures tabs == [] && activeTabId == 0 && tabIdCounter == 0
      ensures history == storedHistory && bookmarks == storedBookmarks && downloads == storedDownloads
      ensures currentZoom == (var z := ParseFloat(if storedZoom.Some? && storedZoom.value != "" then storedZoom.value else "1.0");
        if z.Some? then z.value else NaN)
      ensures currentSearchEngine == StoredEngine(storedEngine)
    {
      tabs, activeTabId, tabIdCounter := [], 0, 0;
      history, bookmarks, downloads := storedHistory, storedBookmarks, storedDownloads;
      var z := ParseFloat(if storedZoom.Some? && storedZoom.value != "" then storedZoom.value else "1.0");
      currentZoom := if z.Some? then z.value else NaN;
      currentSearchEngine := StoredEngine(storedEngine);
    }

    /** `switchTab(id)`: the id becomes active; re-setting the tab's own title changes nothing. */
    method SwitchTab(id: int)
      modifies this`activeTabId
      ensures activeTabId == id
    {
      activeTabId := id;
    }

    /**
     * `createTab(url)`: an empty url means the home page of the current engine. The tab gets the
     * next id, is appended with title `New Tab` and becomes active. With no url and an engine not
     * in the table, `getHomeUrl()` throws before the counter moves, which leaves all as it was.
     */
    method CreateTab(url: string)
      requires Valid()
      modifies this`tabs, this`activeTabId, this`tabIdCounter
      ensures Valid()
      ensures url == "" && HomeUrl(currentSearchEngine).None? ==>
        tabs == old(tabs) && activeTabId == old(activeTabId) && tabIdCounter == old(tabIdCounter)
      ensures url != "" || HomeUrl(currentSearchEngine).Some? ==>
        var target := if url == "" then HomeUrl(currentSearchEngine).value else url;
        tabs == old(tabs) + [Tab(old(tabIdCounter), target, "New Tab")]
        && tabIdCounter == old(tabIdCounter) + 1 && activeTabId == old(tabIdCounter)
        && HasTab(tabs, activeTabId)
    {
      var target := url;
      if url == "" {
        var home := HomeUrl(currentSearchEngine);
        if home.None? {
          return;
        }
        target := home.value;
      }
      var id := tabIdCounter;
      tabIdCounter := tabIdCounter + 1;
      tabs := tabs + [Tab(id, target, "New Tab")];
      SwitchTab(id);
      assert tabs[|tabs| - 1].id == activeTabId;
    }

    /** `closeTab(id)` */
    method CloseTab(id: int)
      requires Valid()
      modifies this`tabs, this`activeTabId
      ensures Valid()
      ensures (tabs, activeTabId) == Closed(old(tabs), old(activeTabId), id)
      ensures old(HasTab(tabs, activeTabId)) ==> HasTab(tabs, activeTabId)
    {
      ClosedKeepsActive(tabs, activeTabId, id);
      if |tabs| <= 1 {
        return;
      }
      var i := FindTab(tabs, id);
      if i == -1 {
        return;
      }
      RemovedBelow(tabs, i, tabIdCounter);
      tabs := tabs[..i] + tabs[i + 1..];
      if activeTabId == id {
        SwitchTab(tabs[if i - 1 < 0 then 0 else i - 1].id);
      }
    }

    /** `updateTabTitle(id, title)`: the first tab with that id gets the title. */
    method UpdateTabTitle(id: int, title: string)
      requires Valid()
      modifies this`tabs
      ensures Valid()
      ensures var i := FindTab(old(tabs), id);
        tabs == if i == -1 then old(tabs) else old(tabs)[i := old(tabs)[i].(title := title)]
    {
      var i := FindTab(tabs, id);
      if i != -1 {
        tabs := tabs[i := tabs[i].(title := title)];
      }
    }

    /**
     * `navigateToAddress(input)` (the address bar passes its text trimmed): the active tab's url
     * becomes the destination. An unknown engine makes the lookup throw, which leaves all as it was.
     */
    method NavigateToAddress(input: string)
      requires Valid()
      modifies this`tabs
      ensures Valid()
      ensures var d := Destination(currentSearchEngine, input); var i := FindTab(old(tabs), activeTabId);
        tabs == if d.None? || i == -1 then old(tabs) else old(tabs)[i := old(tabs)[i].(url := d.value)]
    {
      var d := Destination(currentSearchEngine, input);
      if d.None? {
        return;
      }
      var i := FindTab(tabs, activeTabId);
      if i != -1 {
        tabs := tabs[i := tabs[i].(url := d.value)];
      }
    }

    /** `addToHistory(url, title)`: newest first, at most 1000 entries; an empty title becomes the url. */
    method AddToHistory(url: string, title: string, now: int)
      modifies this`history
      ensures history == Prepend(old(history), Visit(now, url, if title == "" then url else title, now), 1000)
    {
      history := Prepend(history, Visit(now, url, if title == "" then url else title, now), 1000);
    }

    /**
     * The `did-navigate` handler of a tab's webview: the tab's url follows the page, and the page
     * goes into the history unless the url is empty or starts with `chrome-extension://` or `about:`.
     */
    method DidNavigate(tabId: int, url: string, now: int)
      requires Valid()
      modifies this`tabs, this`history
      ensures Valid()
      ensures var i := FindTab(old(tabs), tabId);
        (i == -1 ==> tabs == old(tabs) && history == old(history))
        && (i != -1 ==>
          tabs == old(tabs)[i := old(tabs)[i].(url := url)]
          && history == (if url == "" || StartsWith(url, "chrome-extension://") || StartsWith(url, "about:")
            then old(history)
            else Prepend(old(history), Visit(now, url, if old(tabs)[i].title == "" then url else old(tabs)[i].title, now), 1000)))
    {
      var i := FindTab(tabs, tabId);
      if i == -1 {
        return;
      }
      tabs := tabs[i := tabs[i].(url := url)];
      if url != "" && !StartsWith(url, "chrome-extension://") && !StartsWith(url, "about:") {
        AddToHistory(url, tabs[i].title, now);
      }
    }

    /** Deleting a history entry: every entry with that id goes. */
    method DeleteHistory(id: int)
      modifies this`history
      ensures history == WithoutId(old(history), id)
    {
      history := WithoutId(history, id);
    }

    /** `addBookmark(url, title)`: appended; an empty title becomes the url. */
    method AddBookmark(url: string, title: string, now: int)
      modifies this`bookmarks
      ensures bookmarks == old(bookmarks) + [Visit(now, url, if title == "" then url else title, now)]
    {
      bookmarks := bookmarks + [Visit(now, url, if title == "" then url else title, now)];
    }

    /** Deleting a bookmark: every bookmark with that id goes. */
    method DeleteBookmark(id: int)
      modifies this`bookmarks
      ensures bookmarks == WithoutId(old(bookmarks), id)
    {
      bookmarks := WithoutId(bookmarks, id);
    }

    /** `addDownload(url, filename)`: newest first, at most 100 entries. */
    method AddDownload(url: string, filename: string, now: int)
      modifies this`downloads
      ensures downloads == Prepend(old(downloads), Download(now, url, DownloadName(url, filename), now, "completed"), 100)
    {
      downloads := Prepend(downloads, Download(now, url, DownloadName(url, filename), now, "completed"), 100);
    }

    /** `updateZoom(zoom)` */
    method UpdateZoom(zoom: Num)
      modifies this`currentZoom
      ensures currentZoom == ZoomClamp(zoom)
      ensures !zoom.NaN? ==> currentZoom.Finite? && 0.25 <= currentZoom.r <= 5.0
    {
      ZoomClampRange(zoom);
      currentZoom := ZoomClamp(zoom);
    }

    /** The zoom-in button: one tenth more. */
    method ZoomIn()
      modifies this`currentZoom
      ensures currentZoom == ZoomClamp(Add(old(currentZoom), Finite(0.1)))
    {
      UpdateZoom(Add(currentZoom, Finite(0.1)));
    }

    /** The zoom-out button: one tenth less. */
    method ZoomOut()
      modifies this`currentZoom
      ensures currentZoom == ZoomClamp(Sub(old(currentZoom), Finite(0.1)))
    {
      UpdateZoom(Sub(currentZoom, Finite(0.1)));
    }

    /** The reset button. */
    method ZoomReset()
      modifies this`currentZoom
      ensures currentZoom == Finite(1.0)
    {
      UpdateZoom(Finite(1.0));
    }
  }
}
