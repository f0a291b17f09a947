/**
 * `calculateFormula` of the spreadsheet (sheets.js): textual substitution of cell references,
 * the character-whitelisted arithmetic branch, the `SUM(` branch with its range and list forms,
 * the fallback to the formula text and the `'#ERROR'` result of a syntax error.
 */
module Formula {
  import opened Wrappers
  import opened Text
  import opened JsNumber
  import opened Arith

  /** The column letters of the grid, `COL_NAMES`. */
  const ColNames: string := "ABCDEFGHIJKLMNOPQRSTUVWXYZ"

  /** `COL_NAMES[c]`, written as the character code it is. */
  function ColumnLetter(c: nat): char
    requires c < 26
  {
    ('A' as int + c) as char
  }

  /** The letters of `COL_NAMES` are `A` to `Z` in code order. */
  lemma ColumnLetterIsColName(c: nat)
    requires c < 26
    ensures ColNames[c] == ColumnLetter(c)
  {
  }

  /** What the spreadsheet mapping holds: text, numbers (formula results, JSON numbers), JSON booleans and null. */
  datatype Value = Str(s: string) | Number(n: Num) | Bool(b: bool) | Null

  /** The spreadsheet mapping: cell addresses and `<address>_formula` keys to values. */
  type Sheet = map<string, Value>

  /** `String(v)` */
  function ToText(v: Value): string {
    match v
    case Str(s) => s
    case Number(n) => Show(n)
    case Bool(b) => if b then "true" else "false"
    case Null => "null"
  }

  /** The values JavaScript treats as false in `v || x`. */
  predicate Falsy(v: Value) {
    v == Str("") || v == Null || v == Bool(false) || v == Number(Finite(0.0)) || v == Number(NaN)
  }

  /** `parseFloat(v)`, None standing for NaN. */
  function Reading(v: Value): Option<Num> {
    ParseFloat(ToText(v))
  }

  // Reference substitution: `expression.replace(/([A-Z]+)(\d+)/g, ...)`.

  /** A reference (upper-case letters then digits) starts at `i`: the letter-digit pair the pattern needs. */
  predicate RefAt(s: string, i: int) {
    0 <= i < |s| - 1 && IsUpper(s[i]) && IsDigit(s[i + 1])
  }

  /** The pattern `[A-Z]+\d+` matches nowhere in `s`. */
  predicate RefFree(s: string) {
    forall i :: 0 <= i < |s| - 1 ==> !RefAt(s, i)
  }

  /** The text a reference is replaced with: `'0'` for a missing, null, empty or non-numeric value, else the number's text. */
  function RefText(m: Sheet, ref: string): string {
    if ref !in m || m[ref] == Null || m[ref] == Str("") then "0"
    else
      match Reading(m[ref])
      case None => "0"
      case Some(n) => Show(n)
  }

  /** Length of the run of upper-case letters at the front of `s`. */
  function UpperRun(s: string): (n: nat)
    ensures n <= |s| && (forall i :: 0 <= i < n ==> IsUpper(s[i]))
    ensures n < |s| ==> !IsUpper(s[n])
    decreases |s|
  {
    if s != [] && IsUpper(s[0]) then 1 + UpperRun(s[1..]) else 0
  }

  /** Every maximal run of capitals followed by digits is replaced by the `RefText` of those characters. */
  function Substitute(s: string, m: Sheet): string
    decreases |s|
  {
    if s == [] then []
    else if IsUpper(s[0]) then
      var u := UpperRun(s);
      var d := DigitRun(s[u..]);
      if d > 0 then RefText(m, s[..u + d]) + Substitute(s[u + d..], m)
      else s[..u] + Substitute(s[u..], m)
    else [s[0]] + Substitute(s[1..], m)
  }

  /** Characters of a number's text other than `Infinity`: digits, the sign and the decimal point. */
  predicate Plain(s: string) {
    forall i :: 0 <= i < |s| ==> IsDigit(s[i]) || s[i] == '-' || s[i] == '.'
  }

  lemma PlainJoin(a: string, b: string)
    requires Plain(a) && Plain(b)
    ensures Plain(a + b)
  {
    forall i | 0 <= i < |a + b| ensures IsDigit((a + b)[i]) || (a + b)[i] == '-' || (a + b)[i] == '.' {
      if i >= |a| { assert (a + b)[i] == b[i - |a|]; }
    }
  }

  /** The text of a finite number holds no letter. */
  lemma ShowFinitePlain(x: real)
    ensures Plain(Show(Finite(x)))
  {
    var a := if x < 0.0 then -x else x;
    ShowSigned(x, a);
    MagnitudePlain(a);
    SignedPlain(x < 0.0, Magnitude(a));
  }

  lemma ShowSigned(x: real, a: real)
    requires a == if x < 0.0 then -x else x
    ensures Show(Finite(x)) == (if x < 0.0 then "-" else "") + Magnitude(a)
  {
    if x >= 0.0 {
      assert "" + Magnitude(a) == Magnitude(a);
    }
  }

  lemma SignedPlain(neg: bool, m: string)
    requires Plain(m)
    ensures Plain((if neg then "-" else "") + m)
  {
    if neg { PlainJoin("-", m); } else { assert "" + m == m; }
  }

  lemma MagnitudePlain(a: real)
    requires a >= 0.0
    ensures Plain(Magnitude(a))
  {
    var w, f := NatToString(a.Floor), a - a.Floor as real;
    assert Magnitude(a) == w + FractionText(f);
    assert Plain(FractionText(f)) by {
      if f != 0.0 { PlainJoin(".", FractionDigits(f, 20)); }
    }
    PlainJoin(w, FractionText(f));
  }

  /** Text made of digits, signs and points holds no reference and no capital. */
  lemma PlainRefFree(t: string)
    requires Plain(t)
    ensures RefFree(t) && forall i :: 0 <= i < |t| ==> !IsUpper(t[i])
  {
  }

  /** The text of a number other than NaN holds no reference and does not end in a capital. */
  lemma ShowShape(n: Num)
    requires !n.NaN?
    ensures RefFree(Show(n)) && Show(n) != [] && !IsUpper(Show(n)[|Show(n)| - 1])
  {
    match n
    case Finite(x) =>
      ShowFinitePlain(x);
      PlainRefFree(Show(n));
    case Infinity(neg) =>
      var t := Show(n);
      if neg {
        assert t == "-Infinity";
        assert !RefAt(t, 0) && !RefAt(t, 1);
      } else {
        assert t == "Infinity";
        assert !RefAt(t, 0);
      }
  }

  /** What a reference is replaced with holds no reference and does not end in a capital. */
  lemma RefTextShape(m: Sheet, ref: string)
    ensures RefFree(RefText(m, ref)) && RefText(m, ref) != []
    ensures !IsUpper(RefText(m, ref)[|RefText(m, ref)| - 1])
  {
    if !(ref !in m || m[ref] == Null || m[ref] == Str("")) && Reading(m[ref]).Some? {
      ShowShape(Reading(m[ref]).value);
    }
  }

  /** Joining two texts without references creates none unless a capital meets a digit at the seam. */
  lemma RefFreeJoin(a: string, b: string)
    requires RefFree(a) && RefFree(b)
    requires a == [] || b == [] || !IsUpper(a[|a| - 1]) || !IsDigit(b[0])
    ensures RefFree(a + b)
  {
    var s := a + b;
    forall i ensures !RefAt(s, i) {
      if 0 <= i < |s| - 1 {
        if i < |a| - 1 {
          assert s[i] == a[i] && s[i + 1] == a[i + 1];
          assert !RefAt(a, i);
        } else if i >= |a| {
          assert s[i] == b[i - |a|] && s[i + 1] == b[i - |a| + 1];
          assert !RefAt(b, i - |a|);
        }
      }
    }
  }

  /** Text that does not start with a capital starts its substitution unchanged. */
  lemma SubstituteFirst(s: string, m: Sheet)
    requires s != [] && !IsUpper(s[0])
    ensures Substitute(s, m) != [] && Substitute(s, m)[0] == s[0]
  {
  }

  /** After substitution no reference is left. */
  lemma {:induction false} SubstituteRefFree(s: string, m: Sheet)
    ensures RefFree(Substitute(s, m))
    decreases |s|
  {
    if s == [] {
    } else if IsUpper(s[0]) {
      var u := UpperRun(s);
      var d := DigitRun(s[u..]);
      SubstituteRefFree(s[u + d..], m);
      if d > 0 {
        SubstituteReferenceStep(s, m);
        RefTextShape(m, s[..u + d]);
        JoinAfterValue(RefText(m, s[..u + d]), Substitute(s[u + d..], m));
      } else {
        SubstituteCapitalsStep(s, m);
      }
    } else {
      SubstituteRefFree(s[1..], m);
      assert RefFree([s[0]]);
      RefFreeJoin([s[0]], Substitute(s[1..], m));
    }
  }

  /** A leading reference is replaced by its value and the rest substituted after it. */
  lemma SubstituteReferenceStep(s: string, m: Sheet)
    requires s != [] && IsUpper(s[0]) && DigitRun(s[UpperRun(s)..]) > 0
    ensures var n := UpperRun(s) + DigitRun(s[UpperRun(s)..]);
      Substitute(s, m) == RefText(m, s[..n]) + Substitute(s[n..], m)
  {
    var u := UpperRun(s);
    var d := DigitRun(s[u..]);
    ReferenceParts(s);
    SubstituteReference(s[..u], s[u..u + d], s[u + d..], m);
  }

  /** A number's text, or `0`, followed by text without references, has none. */
  lemma JoinAfterValue(t: string, rest: string)
    requires RefFree(t) && t != [] && !IsUpper(t[|t| - 1]) && RefFree(rest)
    ensures RefFree(t + rest)
  {
    RefFreeJoin(t, rest);
  }

  /** A text starting with a reference is its capitals, its digits and the rest. */
  lemma ReferenceParts(s: string)
    requires s != [] && IsUpper(s[0]) && DigitRun(s[UpperRun(s)..]) > 0
    ensures var u, d := UpperRun(s), DigitRun(s[UpperRun(s)..]);
      && s == s[..u] + s[u..u + d] + s[u + d..] && s[..u] + s[u..u + d] == s[..u + d]
      && AllDigits(s[u..u + d]) && (s[u + d..] == [] || !IsDigit(s[u + d..][0]))
  {
    var u := UpperRun(s);
    var d := DigitRun(s[u..]);
    ThreeParts(s, u, u + d);
    DropSlices(s, u, u + d);
    if u + d < |s| { assert s[u + d..][0] == s[u..][d]; }
  }

  /** Capitals without digits after them, kept before a reference-free rest, leave no reference. */
  lemma SubstituteCapitalsStep(s: string, m: Sheet)
    requires s != [] && IsUpper(s[0]) && DigitRun(s[UpperRun(s)..]) == 0
    requires RefFree(Substitute(s[UpperRun(s)..], m))
    ensures RefFree(Substitute(s, m))
  {
    var u := UpperRun(s);
    var rest := s[u..];
    assert RefFree(s[..u]) by {
      forall i ensures !RefAt(s[..u], i) {
        if 0 <= i < u - 1 { assert !IsDigit(s[..u][i + 1]); }
      }
    }
    if rest != [] {
      assert rest[0] == s[u];
      SubstituteFirst(rest, m);
    }
    RefFreeJoin(s[..u], Substitute(rest, m));
  }

  /** A part of a text without references has none either. */
  lemma RefFreeSlice(s: string, i: nat, j: nat)
    requires RefFree(s) && i <= j <= |s|
    ensures RefFree(s[i..j])
  {
    var t := s[i..j];
    forall k ensures !RefAt(t, k) {
      if 0 <= k < |t| - 1 { assert !RefAt(s, i + k); }
    }
  }

  /** Text without a reference is left as it is. */
  lemma {:induction false} SubstituteIdentity(s: string, m: Sheet)
    requires RefFree(s)
    ensures Substitute(s, m) == s
    decreases |s|
  {
    if s != [] {
      if IsUpper(s[0]) {
        var u := UpperRun(s);
        if u < |s| {
          assert !RefAt(s, u - 1);
        }
        assert DigitRun(s[u..]) == 0;
        RefFreeSlice(s, u, |s|);
        assert s[u..|s|] == s[u..];
        SubstituteIdentity(s[u..], m);
        assert s == s[..u] + s[u..];
      } else {
        RefFreeSlice(s, 1, |s|);
        assert s[1..|s|] == s[1..];
        SubstituteIdentity(s[1..], m);
      }
    }
  }

  /** A reference at the front of the text, letters then digits, is replaced by its `RefText`. */
  lemma SubstituteReference(u: string, d: string, rest: string, m: Sheet)
    requires u != [] && forall i :: 0 <= i < |u| ==> IsUpper(u[i])
    requires d != [] && AllDigits(d)
    requires rest == [] || !IsDigit(rest[0])
    ensures Substitute(u + d + rest, m) == RefText(m, u + d) + Substitute(rest, m)
  {
    var s := u + d + rest;
    UpperRunOf(u, d + rest);
    assert s == u + (d + rest);
    assert s[|u|..] == d + rest;
    DigitRunOf(d, rest);
    assert s[..|u| + |d|] == u + d;
    assert s[|u| + |d|..] == rest;
  }

  lemma {:induction false} UpperRunOf(u: string, t: string)
    requires forall i :: 0 <= i < |u| ==> IsUpper(u[i])
    requires t == [] || !IsUpper(t[0])
    ensures UpperRun(u + t) == |u|
    decreases |u|
  {
    if u != [] {
      assert (u + t)[1..] == u[1..] + t;
      UpperRunOf(u[1..], t);
    }
  }

  lemma {:induction false} DigitRunOf(d: string, t: string)
    requires AllDigits(d)
    requires t == [] || !IsDigit(t[0])
    ensures DigitRun(d + t) == |d|
    decreases |d|
  {
    if d != [] {
      assert (d + t)[1..] == d[1..] + t;
      DigitRunOf(d[1..], t);
    }
  }

  /** A cell holding a whole number is replaced by text that reads back as that number. */
  lemma RefTextOfInteger(m: Sheet, ref: string, n: int)
    requires ref in m && m[ref] != Null && m[ref] != Str("")
    requires Reading(m[ref]) == Some(Finite(n as real))
    ensures ParseFloat(RefText(m, ref)) == Some(Finite(n as real))
  {
    ParseFloatShowsInteger(n);
  }

  /** A reference to a missing, null or empty cell, or to one with no numeric reading, becomes `0`. */
  lemma RefTextZero(m: Sheet, ref: string)
    requires ref !in m || m[ref] == Null || m[ref] == Str("") || Reading(m[ref]).None?
    ensures RefText(m, ref) == "0"
  {
  }

  // The arithmetic branch: `/^[0-9+\-*/().\s]+$/`.

  predicate ArithChar(c: char) {
    IsDigit(c) || c == '+' || c == '-' || c == '*' || c == '/' || c == '(' || c == ')' || c == '.' || IsSpace(c)
  }

  /** The whitelist test: at least one character, all digits, operators, parentheses, points or white space. */
  predicate Whitelisted(e: string) {
    e != [] && forall i :: 0 <= i < |e| ==> ArithChar(e[i])
  }

  // The `SUM(` branch: `expression.match(/SUM\(([^)]+)\)/i)`.

  /** `SUM(` in any letter case at `i`, then at least one character other than `)`, then `)`. */
  predicate SumWith(e: string, i: nat, args: string) {
    i + 4 + |args| < |e| && ToUpper(e[i..i + 4]) == "SUM(" && args != []
    && (forall k :: 0 <= k < |args| ==> args[k] != ')')
    && e[i + 4..i + 4 + |args|] == args && e[i + 4 + |args|] == ')'
  }

  /** Length of the run of characters other than `)` at the front of `t`. */
  function OpenRun(t: string): (n: nat)
    ensures n <= |t| && forall k :: 0 <= k < n ==> t[k] != ')'
    ensures n < |t| ==> t[n] == ')'
    decreases |t|
  {
    if t != [] && t[0] != ')' then 1 + OpenRun(t[1..]) else 0
  }

  /** The characters between `SUM(` at `i` and the next `)`, when the pattern matches at `i`. */
  function SumAt(e: string, i: nat): (r: Option<string>)
    requires i <= |e|
    ensures r.Some? ==> SumWith(e, i, r.value)
  {
    if i + 4 <= |e| && ToUpper(e[i..i + 4]) == "SUM(" then
      var n := OpenRun(e[i + 4..]);
      if 0 < n && i + 4 + n < |e| then Some(e[i + 4..i + 4 + n]) else None
    else None
  }

  /** The pattern matches at `i` exactly when `SumAt` says it does, and captures what `SumAt` returns. */
  lemma SumAtComplete(e: string, i: nat, args: string)
    requires i <= |e|
    ensures SumWith(e, i, args) <==> SumAt(e, i) == Some(args)
  {
    if SumWith(e, i, args) {
      var t := e[i + 4..];
      var n := OpenRun(t);
      assert t[..|args|] == args && t[|args|] == ')';
      assert n == |args|;
    }
  }

  /** Where the `SUM(` pattern first matches and what it captures there. */
  datatype SumMatch = NoSum | SumFound(at: nat, args: string)

  /** The first position from `i` at which the pattern matches, with the characters it captures. */
  function SumArguments(e: string, i: nat): (r: SumMatch)
    requires i <= |e|
    ensures r.SumFound? ==> i <= r.at <= |e| && SumAt(e, r.at) == Some(r.args)
    ensures r.SumFound? ==> forall k :: i <= k < r.at ==> SumAt(e, k).None?
    ensures r.NoSum? ==> forall k :: i <= k <= |e| ==> SumAt(e, k).None?
    decreases |e| - i
  {
    match SumAt(e, i)
    case Some(args) => SumFound(i, args)
    case None => if i == |e| then NoSum else SumArguments(e, i + 1)
  }

  // The range form: `args.match(/([A-Z]+)(\d+):([A-Z]+)(\d+)/)`.

  datatype Range = Range(fromCol: string, fromRow: nat, toCol: string, toRow: nat)

  /** The range pattern matched at `i`: greedy capitals, digits, `:`, capitals, digits. */
  function RangeAt(a: string, i: nat): (r: Option<Range>)
    requires i <= |a|
    ensures r.Some? ==> exists k :: RefAt(a, k)
  {
    var u1 := UpperRun(a[i..]);
    var d1 := DigitRun(a[i + u1..]);
    var j := i + u1 + d1;
    if u1 == 0 || d1 == 0 || j >= |a| || a[j] != ':' then None
    else
      var u2 := UpperRun(a[j + 1..]);
      var d2 := DigitRun(a[j + 1 + u2..]);
      if u2 == 0 || d2 == 0 then None
      else
        assert a[i + u1 - 1] == a[i..][u1 - 1] && a[i + u1] == a[i + u1..][0];
        assert RefAt(a, i + u1 - 1);
        assert a[i + u1..j] == a[i + u1..][..d1];
        assert a[j + 1 + u2..j + 1 + u2 + d2] == a[j + 1 + u2..][..d2];
        Some(Range(a[i..i + u1], DigitsValue(a[i + u1..j]),
                   a[j + 1..j + 1 + u2], DigitsValue(a[j + 1 + u2..j + 1 + u2 + d2])))
  }

  /** The first match of the range pattern from `i` on. */
  function RangeFirst(a: string, i: nat): (r: Option<Range>)
    requires i <= |a|
    ensures r.Some? ==> exists k :: RefAt(a, k)
    decreases |a| - i
  {
    match RangeAt(a, i)
    case Some(g) => Some(g)
    case None => if i == |a| then None else RangeFirst(a, i + 1)
  }

  // Sums. Each cell adds `parseFloat(spreadsheet[key] || 0)` unless that is NaN.

  /** `parseFloat(spreadsheet[key] || 0)`, None standing for NaN. */
  function CellReading(m: Sheet, key: string): Option<Num> {
    if key in m && !Falsy(m[key]) then Reading(m[key]) else Some(Finite(0.0))
  }

  /** `if (!isNaN(val)) sum += val` */
  function AddCell(m: Sheet, acc: Num, key: string): Num {
    match CellReading(m, key)
    case None => acc
    case Some(v) => Add(acc, v)
  }

  /** `COL_NAMES.indexOf(name)`: a position of the grid's letters, or -1. */
  function ColumnIndex(name: string): (c: int)
    ensures -1 <= c < 26
  {
    IndexOf(ColNames, name)
  }

  /**
   * The key `COL_NAMES[c] + r` of the range form, `r` being a number: the column's letter and the
   * row's decimal text. For -1 the letter is `undefined`, and `undefined + r` is the number NaN,
   * whose text is the key `NaN`.
   */
  function RangeKey(c: int, r: nat): string
    requires -1 <= c < 26
  {
    if c < 0 then "NaN" else [ColumnLetter(c)] + NatToString(r)
  }

  /** The sum over columns `c..hi` of row `r`, added to `acc` in order. */
  function RowTotal(m: Sheet, r: nat, c: int, hi: int, acc: Num): Num
    requires -1 <= c && hi < 26
    decreases hi - c + 1
  {
    if c > hi then acc else RowTotal(m, r, c + 1, hi, AddCell(m, acc, RangeKey(c, r)))
  }

  /** A corner column outside A to Z (index -1) reads the key `NaN` on every row. */
  lemma OutsideColumnReadsNaN(m: Sheet, r: nat, acc: Num)
    ensures RowTotal(m, r, -1, -1, acc) == AddCell(m, acc, "NaN")
  {
  }

  /** So over a mapping holding `NaN := "5"`, rows 1 and 2 of such a range add up to 10. */
  lemma OutsideColumnSums()
    ensures RangeTotal(map["NaN" := Str("5")], 1, 2, -1, -1, Finite(0.0)) == Finite(10.0)
  {
    var five := map["NaN" := Str("5")];
    FiveReads();
    OutsideColumnReadsNaN(five, 1, Finite(0.0));
    OutsideColumnReadsNaN(five, 2, Finite(5.0));
    assert RangeTotal(five, 3, 2, -1, -1, Finite(10.0)) == Finite(10.0);
  }

  lemma FiveReads()
    ensures CellReading(map["NaN" := Str("5")], "NaN") == Some(Finite(5.0))
  {
    FiveText();
    ParseFloatShowsInteger(5);
    assert ParseFloat("5") == Some(Finite(5.0));
  }

  lemma FiveText()
    ensures Show(Finite(5.0)) == "5"
  {
    ShowInteger(5);
    assert NatToString(5) == "5";
  }

  /** The sum over rows `r..last` and columns `lo..hi`, row by row, added to `acc`. */
  function RangeTotal(m: Sheet, r: nat, last: nat, lo: int, hi: int, acc: Num): Num
    requires -1 <= lo && hi < 26
    decreases last - r + 1
  {
    if r > last then acc else RangeTotal(m, r + 1, last, lo, hi, RowTotal(m, r, lo, hi, acc))
  }

  function Min(a: int, b: int): int { if a <= b then a else b }

  function Max(a: int, b: int): int { if a <= b then b else a }

  /** The range form's sum: the rows and columns between the two corners, whichever way round they are given. */
  function RangeSum(m: Sheet, g: Range): Num {
    var c1, c2 := ColumnIndex(g.fromCol), ColumnIndex(g.toCol);
    RangeTotal(m, g.fromRow, g.toRow, Min(c1, c2), Max(c1, c2), Finite(0.0))
  }

  /** The list form's sum: each piece of `args.split(',')`, trimmed, looked up in turn. */
  function ListTotal(m: Sheet, pieces: seq<string>, acc: Num): Num
    decreases |pieces|
  {
    if pieces == [] then acc else ListTotal(m, pieces[1..], AddCell(m, acc, Trim(pieces[0])))
  }

  /** The text the evaluator works on: the formula without `=`, trimmed, references substituted. */
  function Expression(f: string, m: Sheet): string
    requires StartsWith(f, "=")
  {
    Substitute(Trim(f[1..]), m)
  }

  /** The `SUM(` branch once the expression starts with `SUM(` in any letter case. */
  function SumFormula(f: string, m: Sheet, e: string): Value {
    match SumArguments(e, 0)
    case NoSum => Str(f)
    case SumFound(_, args) =>
      match RangeFirst(args, 0)
      case Some(g) => Number(RangeSum(m, g))
      case None => Number(ListTotal(m, Split(args, ','), Finite(0.0)))
  }

  /**
   * `calculateFormula(f)` reading the mapping `m`. A text that is not a formula comes back
   * unchanged; whitelisted arithmetic gives its number or `'#ERROR'` on a syntax error; a `SUM(`
   * gives a number; anything else gives the formula text back.
   */
  function CalculateFormula(f: string, m: Sheet): (r: Value)
    ensures r.Str? || r.Number?
    ensures !StartsWith(f, "=") ==> r == Str(f)
    ensures StartsWith(f, "=") ==> (r == Str("#ERROR") <==>
      Whitelisted(Expression(f, m)) && Evaluate("(" + Expression(f, m) + ")").None?)
    ensures r.Str? && r != Str("#ERROR") ==> r == Str(f)
  {
    if !StartsWith(f, "=") then Str(f)
    else
      var e := Expression(f, m);
      assert f != "#ERROR" by { assert f[0] == '='; }
      if Whitelisted(e) then
        match Evaluate("(" + e + ")")
        case None => Str("#ERROR")
        case Some(n) => Number(n)
      else if StartsWith(ToUpper(e), "SUM(") then SumFormula(f, m, e)
      else Str(f)
  }

  // The loops of the `SUM(` branch, proved to compute the folds above.

  /** The inner loop of the range form: the columns `lo..hi` of row `r` (sheets.js lines 424-428). */
  method SumRow(m: Sheet, r: nat, lo: int, hi: int, acc: Num) returns (sum: Num)
    requires -1 <= lo && hi < 26
    ensures sum == RowTotal(m, r, lo, hi, acc)
  {
    sum := acc;
    var c := lo;
    while c <= hi
      invariant lo <= c && (lo <= hi + 1 ==> c <= hi + 1)
      invariant RowTotal(m, r, c, hi, sum) == RowTotal(m, r, lo, hi, acc)
      decreases hi - c
    {
      sum := AddCell(m, sum, RangeKey(c, r));
      c := c + 1;
    }
  }

  /** The outer loop of the range form, one row at a time, over the columns the range names (sheets.js lines 421-430). */
  method SumRange(m: Sheet, startCol: int, startRow: nat, endCol: int, endRow: nat) returns (sum: Num)
    requires -1 <= startCol < 26 && -1 <= endCol < 26
    ensures sum == RangeTotal(m, startRow, endRow, Min(startCol, endCol), Max(startCol, endCol), Finite(0.0))
  {
    var startC, endC := Min(startCol, endCol), Max(startCol, endCol);
    sum := Finite(0.0);
    var r := startRow;
    while r <= endRow
      invariant RangeTotal(m, r, endRow, startC, endC, sum) == RangeTotal(m, startRow, endRow, startC, endC, Finite(0.0))
      decreases endRow - r
    {
      sum := SumRow(m, r, startC, endC, sum);
      r := r + 1;
    }
  }

  /** The `forEach` over the comma-separated pieces of the list form (sheets.js lines 432-438). */
  method SumList(m: Sheet, args: string) returns (sum: Num)
    ensures sum == ListTotal(m, Split(args, ','), Finite(0.0))
  {
    var cells := Split(args, ',');
    sum := Finite(0.0);
    var i := 0;
    while i < |cells|
      invariant i <= |cells|
      invariant ListTotal(m, cells[i..], sum) == ListTotal(m, cells, Finite(0.0))
    {
      assert cells[i..][1..] == cells[i + 1..];
      var cellRef := Trim(cells[i]);
      sum := AddCell(m, sum, cellRef);
      i := i + 1;
    }
  }

  /** `calculateFormula` with the source's loops for the `SUM(` branch; it computes `CalculateFormula`. */
  method Calculate(f: string, m: Sheet) returns (r: Value)
    ensures r == CalculateFormula(f, m)
  {
    if !StartsWith(f, "=") {
      return Str(f);
    }
    var expression := Substitute(Trim(f[1..]), m);
    if Whitelisted(expression) {
      match Evaluate("(" + expression + ")")
      case None => return Str("#ERROR");
      case Some(n) => return Number(n);
    }
    if StartsWith(ToUpper(expression), "SUM(") {
      var sumMatch := SumArguments(expression, 0);
      if sumMatch.SumFound? {
        var args := sumMatch.args;
        var sum: Num;
        var rangeMatch := RangeFirst(args, 0);
        if rangeMatch.Some? {
          var g := rangeMatch.value;
          sum := SumRange(m, ColumnIndex(g.fromCol), g.fromRow, ColumnIndex(g.toCol), g.toRow);
        } else {
          sum := SumList(m, args);
        }
        return Number(sum);
      }
    }
    return Str(f);
  }

  // Why a `SUM(` over references adds up to 0.

  /** The first piece of a split is a prefix of the text. */
  lemma {:induction false} SplitFirstPrefix(s: string, sep: char)
    ensures StartsWith(s, Split(s, sep)[0])
    decreases |s|
  {
    if s != [] && s[0] != sep {
      SplitFirstPrefix(s[1..], sep);
    }
  }

  /** Splitting a text without references gives pieces without references. */
  lemma {:induction false} SplitRefFree(s: string, sep: char)
    requires RefFree(s)
    ensures forall k :: 0 <= k < |Split(s, sep)| ==> RefFree(Split(s, sep)[k])
    decreases |s|
  {
    if s != [] {
      RefFreeSlice(s, 1, |s|);
      assert s[1..|s|] == s[1..];
      SplitRefFree(s[1..], sep);
      if s[0] != sep {
        var rest := Split(s[1..], sep);
        SplitFirstPrefix(s, sep);
        var first := Split(s, sep)[0];
        RefFreeSlice(s, 0, |first|);
        assert Split(s, sep) == [first] + rest[1..];
        forall k | 0 <= k < |Split(s, sep)| ensures RefFree(Split(s, sep)[k]) {
          if k > 0 { assert Split(s, sep)[k] == rest[k]; }
        }
      } else {
        assert Split(s, sep) == [""] + Split(s[1..], sep);
      }
    }
  }

  lemma TrimRefFree(s: string)
    requires RefFree(s)
    ensures RefFree(Trim(s))
  {
    TrimSlice(s);
    var i, j :| 0 <= i <= j <= |s| && Trim(s) == s[i..j];
    RefFreeSlice(s, i, j);
  }

  /** On a sheet whose every key holds a reference, pieces without references add nothing. */
  lemma {:induction false} ListTotalOfMissing(m: Sheet, pieces: seq<string>)
    requires forall key :: key in m ==> !RefFree(key)
    requires forall k :: 0 <= k < |pieces| ==> RefFree(pieces[k])
    ensures ListTotal(m, pieces, Finite(0.0)) == Finite(0.0)
    decreases |pieces|
  {
    if pieces != [] {
      TrimRefFree(pieces[0]);
      assert Trim(pieces[0]) !in m;
      ListTotalOfMissing(m, pieces[1..]);
    }
  }

  /** Once references are substituted, the range pattern never matches the arguments of `SUM(`. */
  lemma RangeUnreachable(f: string, m: Sheet, i: nat, args: string)
    requires StartsWith(f, "=")
    requires i <= |Expression(f, m)| && SumAt(Expression(f, m), i) == Some(args)
    ensures RefFree(args) && RangeFirst(args, 0).None?
  {
    var e := Expression(f, m);
    SubstituteRefFree(Trim(f[1..]), m);
    RefFreeSlice(e, i + 4, i + 4 + |args|);
  }

  /**
   * On a sheet whose keys are all cell addresses (or anything else holding a reference), a formula
   * that reaches the `SUM(` branch evaluates to 0: the references were already replaced by numbers,
   * so the range form never applies and the list form looks up keys that are not there.
   */
  lemma SumOfReferencesIsZero(f: string, m: Sheet)
    requires forall key :: key in m ==> !RefFree(key)
    requires StartsWith(f, "=") && !Whitelisted(Expression(f, m))
    requires StartsWith(ToUpper(Expression(f, m)), "SUM(") && SumArguments(Expression(f, m), 0).SumFound?
    ensures CalculateFormula(f, m) == Number(Finite(0.0))
  {
    var e := Expression(f, m);
    var i, args := SumArguments(e, 0).at, SumArguments(e, 0).args;
    RangeUnreachable(f, m, i, args);
    SplitRefFree(args, ',');
    ListTotalOfMissing(m, Split(args, ','));
  }

  /** A cell address: a grid column letter followed by a row number. */
  lemma AddressHoldsReference(c: nat, r: nat)
    requires c < 26
    ensures !RefFree([ColumnLetter(c)] + NatToString(r))
  {
    var a := [ColumnLetter(c)] + NatToString(r);
    assert RefAt(a, 0);
  }

  /** A written arithmetic expression, typed after `=`, evaluates to its value whatever the sheet holds. */
  lemma ArithmeticFormula(t: Expr, m: Sheet)
    requires Printable(t)
    ensures CalculateFormula("=" + Written(t), m) == Number(Eval(t))
  {
    var f := "=" + Written(t);
    var w := Written(t);
    assert StartsWith(f, "=");
    assert f[1..] == w;
    WrittenChars(t);
    TrimNoSpace(w);
    assert RefFree(w);
    SubstituteIdentity(w, m);
    assert Expression(f, m) == w;
    assert Whitelisted(w);
    EvaluateParenthesised(t);
  }

  /** The tree `1 / 0` is written `1/0`. */
  lemma WrittenOneOverZero()
    ensures Written(Binary(Over, Lit(1.0), Lit(0.0))) == "1/0"
  {
    var ts := [TNum(1.0), TSlash, TNum(0.0)];
    assert Print(Lit(1.0), 1, false) == [TNum(1.0)] && Print(Lit(0.0), 2, false) == [TNum(0.0)];
    assert Bare(Binary(Over, Lit(1.0), Lit(0.0))) == ts;
    ShowInteger(1);
    ShowInteger(0);
    assert NatToString(1) == "1" && NatToString(0) == "0";
    assert Render(ts[3..]) == "";
    assert Render(ts[2..]) == "0" by { assert ts[2..][1..] == ts[3..]; }
    assert Render(ts[1..]) == "/0" by { assert ts[1..][1..] == ts[2..]; }
  }

  /**
   * Dividing by zero is not a syntax error: a positive value over `0`, such as `=1/0`, evaluates
   * to positive infinity and not to `'#ERROR'`.
   */
  lemma DivisionByZero(a: Expr, m: Sheet)
    requires Printable(a) && Eval(a).Finite? && Eval(a).r > 0.0
    ensures CalculateFormula("=" + Written(Binary(Over, a, Lit(0.0))), m) == Number(Infinity(false))
  {
    var t := Binary(Over, a, Lit(0.0));
    WholeDecimals(0.0, 20);
    assert Eval(t) == Infinity(false) by {
      assert Eval(t) == Div(Eval(a), Finite(0.0));
    }
    ArithmeticFormula(t, m);
  }

  /** An expression that is neither whitelisted arithmetic nor a `SUM(` gives the formula text back. */
  lemma FallbackKeepsFormula(f: string, m: Sheet)
    requires StartsWith(f, "=") && !Whitelisted(Expression(f, m))
    requires !StartsWith(ToUpper(Expression(f, m)), "SUM(")
    ensures CalculateFormula(f, m) == Str(f)
  {
  }

  /**
   * A call of a function the evaluator does not know, such as `=FOO(1)`: a capital other than `S`
   * first, no reference and no white space. It is not arithmetic and not a `SUM(`, so the formula
   * text comes back unchanged.
   */
  lemma UnknownFunctionKept(f: string, m: Sheet)
    requires |f| >= 2 && f[0] == '=' && IsUpper(f[1]) && f[1] != 'S'
    requires RefFree(f[1..]) && forall i :: 0 <= i < |f| ==> !IsSpace(f[i])
    ensures CalculateFormula(f, m) == Str(f)
  {
    var e := f[1..];
    UnspacedExpression(f, m);
    assert !ArithChar(e[0]);
    assert !StartsWith(ToUpper(e), "SUM(") by {
      if |e| >= 4 { assert ToUpper(e)[..4][0] == e[0] && "SUM("[0] == 'S'; }
    }
    FallbackKeepsFormula(f, m);
  }

  /** Without white space or references, the expression is the formula after its `=`. */
  lemma UnspacedExpression(f: string, m: Sheet)
    requires |f| >= 1 && f[0] == '='
    requires RefFree(f[1..]) && forall i :: 0 <= i < |f| ==> !IsSpace(f[i])
    ensures Expression(f, m) == f[1..]
  {
    var e := f[1..];
    assert forall i :: 0 <= i < |e| ==> !IsSpace(e[i]) by {
      forall i | 0 <= i < |e| ensures !IsSpace(e[i]) { assert e[i] == f[i + 1]; }
    }
    TrimNoSpace(e);
    SubstituteIdentity(e, m);
  }
}
