/**
 * The arithmetic the spreadsheet hands to JavaScript once a formula has passed the character
 * whitelist (digits, `+ - * / ( ) .` and white space): numerals, unary and binary `+ -`,
 * `* /` binding tighter, left-associative, parentheses. Text JavaScript would refuse as a syntax
 * error (`1 2`, `()`, `1++2`, `01`, a lone `.`) evaluates to None.
 */
module Arith {
  import opened Wrappers
  import opened Text
  import opened JsNumber

  datatype Token = TNum(v: real) | TPlus | TMinus | TStar | TSlash | TOpen | TClose

  /** A numeral at the front of `s`: its value and its length, or None when JavaScript refuses it. */
  function NumeralToken(s: string): (r: Option<(real, nat)>)
    requires s != [] && (IsDigit(s[0]) || s[0] == '.')
    ensures r.Some? ==> 1 <= r.value.1 <= |s| && r.value.0 >= 0.0
  {
    var ip := DigitRun(s);
    var dot := ip < |s| && s[ip] == '.';
    var fp := if dot then DigitRun(s[ip + 1..]) else 0;
    if ip == 0 && fp == 0 then None
    else if ip >= 2 && s[0] == '0' then None
    else
      var whole := DigitsValue(s[..ip]) as real;
      var frac := if dot then FractionValue(s[ip + 1..][..fp]) else 0.0;
      Some((whole + frac, if dot then ip + 1 + fp else ip))
  }

  /** `t` in front of the tokens of the rest, when the rest has them. */
  function Prepend(t: seq<Token>, rest: Option<seq<Token>>): (r: Option<seq<Token>>)
    ensures r.Some? <==> rest.Some?
    ensures r.Some? ==> r.value == t + rest.value
  {
    match rest
    case None => None
    case Some(ts) => Some(t + ts)
  }

  /** The token sequence of `s`, or None on a character or an operator pair JavaScript cannot read. */
  function Tokenize(s: string): Option<seq<Token>>
    decreases |s|
  {
    if s == [] then Some([])
    else if IsSpace(s[0]) then Tokenize(s[1..])
    else if s[0] == '+' then (if |s| > 1 && s[1] == '+' then None else Prepend([TPlus], Tokenize(s[1..])))
    else if s[0] == '-' then (if |s| > 1 && s[1] == '-' then None else Prepend([TMinus], Tokenize(s[1..])))
    else if s[0] == '*' then Prepend([TStar], Tokenize(s[1..]))
    else if s[0] == '/' then Prepend([TSlash], Tokenize(s[1..]))
    else if s[0] == '(' then Prepend([TOpen], Tokenize(s[1..]))
    else if s[0] == ')' then Prepend([TClose], Tokenize(s[1..]))
    else if IsDigit(s[0]) || s[0] == '.' then
      match NumeralToken(s)
      case None => None
      case Some((v, n)) => Prepend([TNum(v)], Tokenize(s[n..]))
    else None
  }

  // Recursive descent. Each parser starts at token index `i` and returns the value and the index
  // just past what it read.

  /** What a parser made of the tokens from its start: nothing, or a value and where it stopped. */
  datatype Reading = NoRead | Read(value: Num, next: nat)

  /** expr := term (('+' | '-') term)* */
  function ParseExpr(ts: seq<Token>, i: nat): (r: Reading)
    requires i <= |ts|
    ensures r.Read? ==> i < r.next <= |ts|
    decreases |ts| - i, 3
  {
    match ParseTerm(ts, i)
    case NoRead => NoRead
    case Read(v, j) => ParseExprRest(ts, j, v)
  }

  function ParseExprRest(ts: seq<Token>, j: nat, acc: Num): (r: Reading)
    requires j <= |ts|
    ensures r.Read? ==> j <= r.next <= |ts|
    decreases |ts| - j, 3
  {
    if j < |ts| && (ts[j] == TPlus || ts[j] == TMinus) then
      match ParseTerm(ts, j + 1)
      case NoRead => NoRead
      case Read(v, k) => ParseExprRest(ts, k, if ts[j] == TPlus then Add(acc, v) else Sub(acc, v))
    else Read(acc, j)
  }

  /** term := unary (('*' | '/') unary)* */
  function ParseTerm(ts: seq<Token>, i: nat): (r: Reading)
    requires i <= |ts|
    ensures r.Read? ==> i < r.next <= |ts|
    decreases |ts| - i, 2
  {
    match ParseUnary(ts, i)
    case NoRead => NoRead
    case Read(v, j) => ParseTermRest(ts, j, v)
  }

  function ParseTermRest(ts: seq<Token>, j: nat, acc: Num): (r: Reading)
    requires j <= |ts|
    ensures r.Read? ==> j <= r.next <= |ts|
    decreases |ts| - j, 2
  {
    if j < |ts| && (ts[j] == TStar || ts[j] == TSlash) then
      match ParseUnary(ts, j + 1)
      case NoRead => NoRead
      case Read(v, k) => ParseTermRest(ts, k, if ts[j] == TStar then Mul(acc, v) else Div(acc, v))
    else Read(acc, j)
  }

  /** unary := ('+' | '-') unary | primary */
  function ParseUnary(ts: seq<Token>, i: nat): (r: Reading)
    requires i <= |ts|
    ensures r.Read? ==> i < r.next <= |ts|
    decreases |ts| - i, 1
  {
    if i < |ts| && ts[i] == TMinus then
      match ParseUnary(ts, i + 1)
      case NoRead => NoRead
      case Read(v, j) => Read(Neg(v), j)
    else if i < |ts| && ts[i] == TPlus then ParseUnary(ts, i + 1)
    else ParsePrimary(ts, i)
  }

  /** primary := numeral | '(' expr ')' */
  function ParsePrimary(ts: seq<Token>, i: nat): (r: Reading)
    requires i <= |ts|
    ensures r.Read? ==> i < r.next <= |ts|
    decreases |ts| - i, 0
  {
    if i < |ts| && ts[i].TNum? then Read(Finite(ts[i].v), i + 1)
    else if i < |ts| && ts[i] == TOpen then
      match ParseExpr(ts, i + 1)
      case NoRead => NoRead
      case Read(v, k) => if k < |ts| && ts[k] == TClose then Read(v, k + 1) else NoRead
    else NoRead
  }

  /** The value of a whole token sequence read as one expression. */
  function ParseAll(ts: seq<Token>): Option<Num> {
    match ParseExpr(ts, 0)
    case NoRead => None
    case Read(v, k) => if k == |ts| then Some(v) else None
  }

  /** The value of an arithmetic text, or None where JavaScript reports a syntax error. */
  function Evaluate(s: string): Option<Num> {
    match Tokenize(s)
    case None => None
    case Some(ts) => ParseAll(ts)
  }

  // An independent reference: expression trees with their values, and a printer that writes only
  // the parentheses the grammar needs.

  datatype Op = Plus | Minus | Times | Over

  datatype Expr = Lit(v: real) | Negate(e: Expr) | Binary(op: Op, a: Expr, b: Expr)

  function Apply(op: Op, x: Num, y: Num): Num {
    match op
    case Plus => Add(x, y)
    case Minus => Sub(x, y)
    case Times => Mul(x, y)
    case Over => Div(x, y)
  }

  function Eval(e: Expr): Num {
    match e
    case Lit(v) => Finite(v)
    case Negate(x) => Neg(Eval(x))
    case Binary(op, a, b) => Apply(op, Eval(a), Eval(b))
  }

  function OpToken(op: Op): Token {
    match op
    case Plus => TPlus
    case Minus => TMinus
    case Times => TStar
    case Over => TSlash
  }

  /** How tightly a tree holds together: sums 0, products 1, negations 2, numerals 3. */
  function Level(e: Expr): nat {
    match e
    case Lit(_) => 3
    case Negate(_) => 2
    case Binary(op, _, _) => LeftNeed(op)
  }

  /** The level an operator's left operand must have; its right operand needs one more. */
  function LeftNeed(op: Op): nat {
    if op == Plus || op == Minus then 0 else 1
  }

  /** A token sequence that starts like an operand, or with a unary minus. */
  predicate Opens(ts: seq<Token>) {
    ts != [] && (ts[0].TNum? || ts[0] == TOpen || ts[0] == TMinus)
  }

  /** The last token closes an operand. */
  predicate Ends(ts: seq<Token>) {
    ts != [] && (ts[|ts| - 1].TNum? || ts[|ts| - 1] == TClose)
  }

  /** The tokens of a tree, with parentheses only around its operands where they are needed. */
  function Bare(e: Expr): seq<Token>
    decreases e, 0
  {
    match e
    case Lit(v) => [TNum(v)]
    case Negate(x) => [TMinus] + Print(x, 3, false)
    case Binary(op, a, b) => Print(a, LeftNeed(op), false) + [OpToken(op)] + Print(b, LeftNeed(op) + 1, op == Minus)
  }

  /** The printed tree starts with a minus sign: it is a negation, or its left operand is one. */
  predicate LeadsMinus(e: Expr) {
    match e
    case Lit(_) => false
    case Negate(_) => true
    case Binary(op, a, _) => Level(a) >= LeftNeed(op) && LeadsMinus(a)
  }

  /**
   * A tree is put in parentheses where the grammar reads something tighter than the tree, and
   * after a binary minus when it would start with a minus, because `--` reads as a decrement.
   */
  predicate Grouped(e: Expr, need: nat, afterMinus: bool) {
    Level(e) < need || (afterMinus && LeadsMinus(e))
  }

  /** The tokens of a tree where the grammar reads at least level `need`. */
  function Print(e: Expr, need: nat, afterMinus: bool): seq<Token>
    decreases e, 1
  {
    if Grouped(e, need, afterMinus) then [TOpen] + Bare(e) + [TClose] else Bare(e)
  }

  /** A printed tree opens and closes like an operand, and starts with a minus exactly when it leads with one. */
  lemma {:induction false} BareEdges(e: Expr)
    ensures Opens(Bare(e)) && Ends(Bare(e)) && (Bare(e)[0] == TMinus <==> LeadsMinus(e))
    decreases e, 0
  {
    match e
    case Lit(_) =>
    case Negate(x) =>
      PrintEdges(x, 3, false);
    case Binary(op, a, b) =>
      PrintEdges(a, LeftNeed(op), false);
      PrintEdges(b, LeftNeed(op) + 1, op == Minus);
  }

  /** Parentheses or not, a printed tree opens and closes like an operand; a leading minus is never grouped. */
  lemma {:induction false} PrintEdges(e: Expr, need: nat, afterMinus: bool)
    ensures var ts := Print(e, need, afterMinus);
      Opens(ts) && Ends(ts) && (ts[0] == TMinus <==> !Grouped(e, need, afterMinus) && LeadsMinus(e))
      && (ts[0] == TMinus ==> need <= 2 && !afterMinus)
    decreases e, 1
  {
    BareEdges(e);
  }

  /** `t` stands in `ts` from position `p` on. */
  predicate Agree(ts: seq<Token>, p: nat, t: seq<Token>) {
    p + |t| <= |ts| && ts[p..p + |t|] == t
  }

  lemma AgreeAt(ts: seq<Token>, p: nat, t: seq<Token>, k: nat)
    requires Agree(ts, p, t) && k < |t|
    ensures ts[p + k] == t[k]
  {
    assert ts[p..p + |t|][k] == ts[p + k];
  }

  /** Where the parts of `x o y` stand, given where the whole stands. */
  lemma AgreeParts(ts: seq<Token>, p: nat, x: seq<Token>, o: Token, y: seq<Token>)
    requires Agree(ts, p, x + [o] + y)
    ensures Agree(ts, p, x) && p + |x| < |ts| && ts[p + |x|] == o && Agree(ts, p + |x| + 1, y)
  {
    var t := x + [o] + y;
    var q := p + |t|;
    assert ts[p..q] == t;
    assert ts[p..p + |x|] == ts[p..q][..|x|] == t[..|x|] == x;
    assert ts[p + |x|] == ts[p..q][|x|] == t[|x|] == o;
    assert ts[p + |x| + 1..q] == ts[p..q][|x| + 1..] == t[|x| + 1..] == y;
  }

  /** Where the operands of a printed binary tree stand, given where the tree stands. */
  lemma AgreeBinary(ts: seq<Token>, p: nat, op: Op, a: Expr, b: Expr)
    requires Agree(ts, p, Bare(Binary(op, a, b)))
    ensures var ta := Print(a, LeftNeed(op), false);
      Agree(ts, p, ta) && p + |ta| < |ts| && ts[p + |ta|] == OpToken(op)
      && Agree(ts, p + |ta| + 1, Print(b, LeftNeed(op) + 1, op == Minus))
      && |Bare(Binary(op, a, b))| == |ta| + 1 + |Print(b, LeftNeed(op) + 1, op == Minus)|
  {
    AgreeParts(ts, p, Print(a, LeftNeed(op), false), OpToken(op), Print(b, LeftNeed(op) + 1, op == Minus));
  }

  /** Where the inside of a parenthesised sequence stands, given where the whole stands. */
  lemma AgreeGroup(ts: seq<Token>, p: nat, te: seq<Token>)
    requires Agree(ts, p, [TOpen] + te + [TClose])
    ensures p + 1 + |te| < |ts| && ts[p] == TOpen && Agree(ts, p + 1, te) && ts[p + 1 + |te|] == TClose
  {
    assert [TOpen] + te + [TClose] == [TOpen] + te + [TClose] + [];
    AgreeParts(ts, p, [TOpen] + te, TClose, []);
    assert [TOpen] + te == [] + [TOpen] + te;
    AgreeParts(ts, p, [], TOpen, te);
  }

  /** Nothing continues a product at `k`: the end, or a token other than `*` and `/`. */
  predicate NoProduct(ts: seq<Token>, k: nat) {
    k >= |ts| || (ts[k] != TStar && ts[k] != TSlash)
  }

  // Reading printed trees back. Each lemma says what one parser makes of a printed tree standing
  // at position `p`: the `Rest` parsers carry on from its end with the tree's value.

  /** An expression starting with a printed tree reads the tree and goes on from its end. */
  lemma {:induction false} ExprReads(e: Expr, ts: seq<Token>, p: nat)
    requires Agree(ts, p, Bare(e)) && NoProduct(ts, p + |Bare(e)|)
    ensures ParseExpr(ts, p) == ParseExprRest(ts, p + |Bare(e)|, Eval(e))
    decreases e, 4
  {
    if e.Binary? && LeftNeed(e.op) == 0 {
      SumReads(e.op, e.a, e.b, ts, p);
    } else {
      var end := p + |Bare(e)|;
      TermReads(e, ts, p);
      assert ParseTermRest(ts, end, Eval(e)) == Read(Eval(e), end);
    }
  }

  /** A printed sum reads its left operand as an expression, then its right one as a term. */
  lemma {:induction false} SumReads(op: Op, a: Expr, b: Expr, ts: seq<Token>, p: nat)
    requires LeftNeed(op) == 0
    requires Agree(ts, p, Bare(Binary(op, a, b))) && NoProduct(ts, p + |Bare(Binary(op, a, b))|)
    ensures ParseExpr(ts, p) == ParseExprRest(ts, p + |Bare(Binary(op, a, b))|, Apply(op, Eval(a), Eval(b)))
    decreases Binary(op, a, b), 3
  {
    var ta, tb := Print(a, 0, false), Print(b, 1, op == Minus);
    assert !Grouped(a, 0, false);
    AgreeBinary(ts, p, op, a, b);
    SumParts(op, a, b, ts, p, p + |ta|, p + |ta| + 1 + |tb|);
  }

  /** The operands of a printed sum, read one after the other. */
  lemma {:induction false} SumParts(op: Op, a: Expr, b: Expr, ts: seq<Token>, p: nat, j: nat, end: nat)
    requires LeftNeed(op) == 0 && j == p + |Bare(a)| && end == j + 1 + |Print(b, 1, op == Minus)|
    requires Agree(ts, p, Bare(a)) && j < |ts| && ts[j] == OpToken(op)
    requires Agree(ts, j + 1, Print(b, 1, op == Minus)) && NoProduct(ts, end)
    ensures ParseExpr(ts, p) == ParseExprRest(ts, end, Apply(op, Eval(a), Eval(b)))
    decreases Binary(op, a, b), 2
  {
    ExprReads(a, ts, p);
    PrintedTermReads(b, 1, op == Minus, ts, j + 1);
    SumStep(ts, p, j, end, op, Eval(a), Eval(b));
  }

  /** An expression read up to `+` or `-` at `j`, then a whole term up to `end`. */
  lemma SumStep(ts: seq<Token>, p: nat, j: nat, end: nat, op: Op, va: Num, vb: Num)
    requires LeftNeed(op) == 0 && p <= j < end <= |ts| && ts[j] == OpToken(op) && NoProduct(ts, end)
    requires ParseExpr(ts, p) == ParseExprRest(ts, j, va) && ParseTerm(ts, j + 1) == ParseTermRest(ts, end, vb)
    ensures ParseExpr(ts, p) == ParseExprRest(ts, end, Apply(op, va, vb))
  {
    assert ParseTermRest(ts, end, vb) == Read(vb, end);
    ExprRestStep(ts, j, va, vb, end);
  }

  /** `+ term` or `- term` after an expression so far. */
  lemma ExprRestStep(ts: seq<Token>, j: nat, acc: Num, v: Num, k: nat)
    requires j < |ts| && (ts[j] == TPlus || ts[j] == TMinus) && ParseTerm(ts, j + 1) == Read(v, k)
    ensures ParseExprRest(ts, j, acc) == ParseExprRest(ts, k, if ts[j] == TPlus then Add(acc, v) else Sub(acc, v))
  {
  }

  /** `* unary` or `/ unary` after a term so far. */
  lemma TermRestStep(ts: seq<Token>, j: nat, acc: Num, v: Num, k: nat)
    requires j < |ts| && (ts[j] == TStar || ts[j] == TSlash) && ParseUnary(ts, j + 1) == Read(v, k)
    ensures ParseTermRest(ts, j, acc) == ParseTermRest(ts, k, if ts[j] == TStar then Mul(acc, v) else Div(acc, v))
  {
  }

  /** A term starting with a printed product, negation or numeral reads it and goes on from its end. */
  lemma {:induction false} TermReads(e: Expr, ts: seq<Token>, p: nat)
    requires Level(e) >= 1 && Agree(ts, p, Bare(e))
    ensures ParseTerm(ts, p) == ParseTermRest(ts, p + |Bare(e)|, Eval(e))
    decreases e, 3
  {
    if e.Binary? {
      ProductReads(e.op, e.a, e.b, ts, p);
    } else {
      UnaryReads(e, ts, p);
    }
  }

  /** A printed product or quotient is read as one term so far. */
  lemma {:induction false} ProductReads(op: Op, a: Expr, b: Expr, ts: seq<Token>, p: nat)
    requires LeftNeed(op) == 1 && Agree(ts, p, Bare(Binary(op, a, b)))
    ensures ParseTerm(ts, p) == ParseTermRest(ts, p + |Bare(Binary(op, a, b))|, Apply(op, Eval(a), Eval(b)))
    decreases Binary(op, a, b), 2
  {
    assert op == Times || op == Over;
    var ta, tb := Print(a, 1, false), Print(b, 2, false);
    AgreeBinary(ts, p, op, a, b);
    ProductParts(op, a, b, ts, p, p + |ta|, p + |ta| + 1 + |tb|);
  }

  /** The operands of a printed product, read one after the other. */
  lemma {:induction false} ProductParts(op: Op, a: Expr, b: Expr, ts: seq<Token>, p: nat, j: nat, end: nat)
    requires LeftNeed(op) == 1 && j == p + |Print(a, 1, false)| && end == j + 1 + |Print(b, 2, false)|
    requires Agree(ts, p, Print(a, 1, false)) && j < |ts| && ts[j] == OpToken(op)
    requires Agree(ts, j + 1, Print(b, 2, false))
    ensures ParseTerm(ts, p) == ParseTermRest(ts, end, Apply(op, Eval(a), Eval(b)))
    decreases Binary(op, a, b), 1
  {
    PrintedTermReads(a, 1, false, ts, p);
    PrintedUnaryReads(b, 2, false, ts, j + 1);
    ProductStep(ts, p, j, end, op, Eval(a), Eval(b));
  }

  /** A term read up to `*` or `/` at `j`, then a unary up to `end`. */
  lemma ProductStep(ts: seq<Token>, p: nat, j: nat, end: nat, op: Op, va: Num, vb: Num)
    requires LeftNeed(op) == 1 && p <= j < |ts| && ts[j] == OpToken(op)
    requires ParseTerm(ts, p) == ParseTermRest(ts, j, va) && ParseUnary(ts, j + 1) == Read(vb, end)
    ensures ParseTerm(ts, p) == ParseTermRest(ts, end, Apply(op, va, vb))
  {
    TermRestStep(ts, j, va, vb, end);
  }


  /** A printed negation or numeral is one unary. */
  lemma {:induction false} UnaryReads(e: Expr, ts: seq<Token>, p: nat)
    requires Level(e) >= 2 && Agree(ts, p, Bare(e))
    ensures ParseUnary(ts, p) == Read(Eval(e), p + |Bare(e)|)
    decreases e, 2
  {
    if e.Lit? {
      AgreeAt(ts, p, Bare(e), 0);
    } else {
      var x := e.e;
      var tx := Print(x, 3, false);
      assert Bare(e) == [] + [TMinus] + tx;
      AgreeParts(ts, p, [], TMinus, tx);
      PrintedUnaryReads(x, 3, false, ts, p + 1);
    }
  }

  /** A printed tree in parentheses is one unary. */
  lemma {:induction false} GroupReads(e: Expr, ts: seq<Token>, p: nat)
    requires Agree(ts, p, [TOpen] + Bare(e) + [TClose])
    ensures ParseUnary(ts, p) == Read(Eval(e), p + |Bare(e)| + 2)
    decreases e, 5
  {
    var te := Bare(e);
    var c := p + 1 + |te|;
    AgreeGroup(ts, p, te);
    ExprReads(e, ts, p + 1);
    assert ParseExprRest(ts, c, Eval(e)) == Read(Eval(e), c);
    PrimaryOfParenthesised(ts, p, Eval(e), c);
  }

  /** A tree printed where a term is read reads as a term up to its end. */
  lemma {:induction false} PrintedTermReads(e: Expr, need: nat, afterMinus: bool, ts: seq<Token>, p: nat)
    requires need >= 1 && Agree(ts, p, Print(e, need, afterMinus))
    ensures ParseTerm(ts, p) == ParseTermRest(ts, p + |Print(e, need, afterMinus)|, Eval(e))
    decreases e, 6
  {
    if Grouped(e, need, afterMinus) {
      GroupReads(e, ts, p);
    } else {
      TermReads(e, ts, p);
    }
  }

  /** A tree printed where a unary is read is one unary. */
  lemma {:induction false} PrintedUnaryReads(e: Expr, need: nat, afterMinus: bool, ts: seq<Token>, p: nat)
    requires need >= 2 && Agree(ts, p, Print(e, need, afterMinus))
    ensures ParseUnary(ts, p) == Read(Eval(e), p + |Print(e, need, afterMinus)|)
    decreases e, 6
  {
    if Grouped(e, need, afterMinus) {
      GroupReads(e, ts, p);
    } else {
      UnaryReads(e, ts, p);
    }
  }

  /** A unary that takes up the whole sequence is its whole expression. */
  lemma WholeUnary(ts: seq<Token>, v: Num)
    requires ParseUnary(ts, 0) == Read(v, |ts|)
    ensures ParseAll(ts) == Some(v)
  {
    assert ParseTermRest(ts, |ts|, v) == Read(v, |ts|);
    assert ParseTerm(ts, 0) == Read(v, |ts|);
    assert ParseExprRest(ts, |ts|, v) == Read(v, |ts|);
  }

  /** `( expr )` is a primary. */
  lemma PrimaryOfParenthesised(ts: seq<Token>, i: nat, v: Num, k: nat)
    requires i + 1 <= |ts| && ts[i] == TOpen
    requires ParseExpr(ts, i + 1) == Read(v, k) && k < |ts| && ts[k] == TClose
    ensures ParseUnary(ts, i) == Read(v, k + 1)
  {
  }

  /** The printed tokens of every tree, read as a whole, have exactly the tree's value. */
  lemma ParseAllPrinted(e: Expr)
    ensures ParseAll(Bare(e)) == Some(Eval(e))
  {
    var ts := Bare(e);
    assert Agree(ts, 0, ts);
    ExprReads(e, ts, 0);
  }

  /** So do the printed tokens in parentheses. */
  lemma ParseAllGrouped(e: Expr)
    ensures ParseAll([TOpen] + Bare(e) + [TClose]) == Some(Eval(e))
  {
    var ts := [TOpen] + Bare(e) + [TClose];
    assert Agree(ts, 0, ts);
    GroupReads(e, ts, 0);
    WholeUnary(ts, Eval(e));
  }

  // Writing tokens as text, and reading the text back through the tokenizer.

  /** A numeral the printer writes: a non-negative number with at most 20 decimals. */
  predicate Numeric(v: real) {
    v >= 0.0 && Decimals(v, 20)
  }

  predicate Writable(t: Token) {
    t.TNum? ==> Numeric(t.v)
  }

  /** A number token is written as `String(v)` writes it; an operator or parenthesis as itself. */
  function TokenText(t: Token): (s: string)
    ensures |s| >= 1
  {
    match t
    case TNum(v) => Show(Finite(v))
    case TPlus => "+"
    case TMinus => "-"
    case TStar => "*"
    case TSlash => "/"
    case TOpen => "("
    case TClose => ")"
  }

  /** The text of a token sequence, each token written without spacing. */
  function Render(ts: seq<Token>): (s: string)
    ensures ts != [] ==> |s| >= 1 && s[0] == TokenText(ts[0])[0]
  {
    if ts == [] then "" else TokenText(ts[0]) + Render(ts[1..])
  }

  /** Neighbouring tokens the tokenizer would read differently once written side by side. */
  predicate Clash(t: Token, u: Token) {
    (t.TNum? && u.TNum?) || (t == TPlus && u == TPlus) || (t == TMinus && u == TMinus)
  }

  /** A token sequence whose text reads back as itself: writable numerals, no clashing neighbours. */
  predicate Separated(ts: seq<Token>) {
    (forall i :: 0 <= i < |ts| ==> Writable(ts[i]))
    && (forall i :: 0 <= i < |ts| - 1 ==> !Clash(ts[i], ts[i + 1]))
  }

  /** One operator or parenthesis character is one token. */
  lemma TokenizeSymbol(t: Token, rest: string)
    requires !t.TNum? && (rest == [] || !((t == TPlus || t == TMinus) && rest[0] == TokenText(t)[0]))
    ensures Tokenize(TokenText(t) + rest) == Prepend([t], Tokenize(rest))
  {
    var s := TokenText(t) + rest;
    assert s[1..] == rest;
    match t
    case TPlus => assert s[0] == '+';
    case TMinus => assert s[0] == '-';
    case TStar => assert s[0] == '*';
    case TSlash => assert s[0] == '/';
    case TOpen => assert s[0] == '(';
    case TClose => assert s[0] == ')';
  }

  /** What may follow a numeral without changing how it is tokenized. */
  predicate Boundary(rest: string) {
    rest == [] || !(IsDigit(rest[0]) || rest[0] == '.')
  }

  /** The numeral of a natural, followed by a boundary, is one number token. */
  lemma TokenizeNatural(n: nat, rest: string)
    requires Boundary(rest)
    ensures Tokenize(NatToString(n) + rest) == Prepend([TNum(n as real)], Tokenize(rest))
  {
    var d := NatToString(n);
    var s := d + rest;
    assert s[0] == d[0];
    assert DigitRun(s) == |d| by {
      DigitRunOfDigits(d);
      DigitRunPrefix(d, rest);
    }
    assert s[..|d|] == d;
    DigitsValueOfNatToString(n);
    assert NumeralToken(s) == Some((n as real, |d|));
    assert s[|d|..] == rest;
  }

  /** A numeral with a point, given where its whole digits and its fraction digits end. */
  lemma NumeralAt(s: string, ip: nat, fp: nat)
    requires ip < |s| && s[ip] == '.' && (IsDigit(s[0]) || s[0] == '.')
    requires DigitRun(s) == ip && DigitRun(s[ip + 1..]) == fp && fp >= 1 && !(ip >= 2 && s[0] == '0')
    ensures NumeralToken(s).Some? && NumeralToken(s).value.1 == ip + 1 + fp
      && NumeralToken(s).value.0 == DigitsValue(s[..ip]) as real + FractionValue(s[ip + 1..][..fp])
  {
    var dot := ip < |s| && s[ip] == '.';
    assert dot;
    var f := if dot then DigitRun(s[ip + 1..]) else 0;
    assert f == fp;
    assert !(ip == 0 && f == 0);
  }

  /** A numeral with a point, followed by what cannot continue it, is one token. */
  lemma NumeralWithPoint(wd: string, fd: string, rest: string)
    requires AllDigits(wd) && AllDigits(fd) && fd != [] && !(|wd| >= 2 && wd[0] == '0')
    requires rest == [] || !IsDigit(rest[0])
    ensures var s := wd + ("." + fd) + rest;
      NumeralToken(s).Some? && NumeralToken(s).value.0 == DigitsValue(wd) as real + FractionValue(fd)
      && NumeralToken(s).value.1 == |wd| + 1 + |fd|
  {
    var s := wd + ("." + fd) + rest;
    var ip := |wd|;
    SplitAtPoint(wd, fd, rest);
    DigitRunAt(s, ip);
    var after := s[ip + 1..];
    assert after[..|fd|] == fd;
    assert |fd| < |after| ==> after[|fd|] == rest[0];
    DigitRunAt(after, |fd|);
    NumeralAt(s, ip, |fd|);
  }

  /** Where the whole digits, the point and the fraction digits sit in a numeral with a point. */
  lemma SplitAtPoint(wd: string, fd: string, rest: string)
    ensures var s := wd + ("." + fd) + rest;
      |s| == |wd| + 1 + |fd| + |rest| && s[..|wd|] == wd && s[|wd|] == '.' && s[|wd| + 1..] == fd + rest
  {
    var s := wd + ("." + fd) + rest;
    assert s[|wd| + 1..] == fd + rest by {
      var t := s[|wd| + 1..];
      forall i | 0 <= i < |t| ensures t[i] == (fd + rest)[i] {
        assert t[i] == s[|wd| + 1 + i];
      }
    }
  }

  /** The digit run at the front of `s` is `k` long when `k` digits come first and no digit follows them. */
  lemma {:induction false} DigitRunAt(s: string, k: nat)
    requires k <= |s| && AllDigits(s[..k]) && (k == |s| || !IsDigit(s[k]))
    ensures DigitRun(s) == k
    decreases k
  {
    if k > 0 {
      assert IsDigit(s[..k][0]);
      var t := s[1..];
      var u := t[..k - 1];
      assert AllDigits(u) by {
        forall i | 0 <= i < |u| ensures IsDigit(u[i]) {
          assert u[i] == s[..k][i + 1];
        }
      }
      assert k - 1 < |t| ==> t[k - 1] == s[k];
      DigitRunAt(t, k - 1);
    }
  }

  /** A numeral token at the head of the text is followed by the tokens of what comes after it. */
  lemma TokenizeNumeralHead(s: string, v: real, n: nat, rest: string)
    requires s != [] && (IsDigit(s[0]) || s[0] == '.')
    requires NumeralToken(s).Some? && NumeralToken(s).value.0 == v && NumeralToken(s).value.1 == n && s[n..] == rest
    ensures Tokenize(s) == Prepend([TNum(v)], Tokenize(rest))
  {
  }

  /** A whole part, a point and fraction digits, followed by a boundary, are one number token. */
  lemma TokenizeFraction(d: string, fs: string, rest: string, v: real)
    requires AllDigits(d) && d != [] && !(|d| >= 2 && d[0] == '0')
    requires fs != [] && AllDigits(fs) && Boundary(rest) && v == DigitsValue(d) as real + FractionValue(fs)
    ensures Tokenize(d + ("." + fs) + rest) == Prepend([TNum(v)], Tokenize(rest))
  {
    var s := d + ("." + fs) + rest;
    var len: nat := |d| + 1 + |fs|;
    NumeralWithPoint(d, fs, rest);
    assert s[0] == d[0];
    assert s[len..] == rest;
    TokenizeNumeralHead(s, v, len, rest);
  }

  /** The text `String(v)` of a writable numeral, followed by a boundary, is one number token. */
  lemma TokenizeNumeral(v: real, rest: string)
    requires Numeric(v) && Boundary(rest)
    ensures Tokenize(Show(Finite(v)) + rest) == Prepend([TNum(v)], Tokenize(rest))
  {
    var i: nat := v.Floor;
    var f := v - i as real;
    var d := NatToString(i);
    assert Show(Finite(v)) == d + FractionText(f);
    if f == 0.0 {
      assert d + FractionText(f) == d;
      assert v == i as real;
      TokenizeNatural(i, rest);
    } else {
      var fs := FractionDigits(f, 20);
      assert FractionText(f) == "." + fs;
      TokenizeFractional(v, rest);
    }
  }

  /** `String(v)` of a writable numeral with a fraction, followed by a boundary, is one number token. */
  lemma TokenizeFractional(v: real, rest: string)
    requires Numeric(v) && Boundary(rest) && v != v.Floor as real
    ensures var i: nat := v.Floor; var f := v - i as real;
      Tokenize(NatToString(i) + ("." + FractionDigits(f, 20)) + rest) == Prepend([TNum(v)], Tokenize(rest))
  {
    var i: nat := v.Floor;
    var f := v - i as real;
    var d := NatToString(i);
    var fs := FractionDigits(f, 20);
    assert AllDigits(fs) && fs != [] && FractionValue(fs) == f by {
      LessWhole(v, i, 20);
      FractionDigitsValue(f, 20);
    }
    assert DigitsValue(d) as real + FractionValue(fs) == v by {
      DigitsValueOfNatToString(i);
    }
    TokenizeFraction(d, fs, rest, v);
  }

  /** A run of digits ends where something other than a digit follows it. */
  lemma {:induction false} DigitRunPrefix(d: string, rest: string)
    requires DigitRun(d) == |d| && (rest == [] || !IsDigit(rest[0]))
    ensures DigitRun(d + rest) == |d|
    decreases |d|
  {
    if d != [] {
      assert (d + rest)[1..] == d[1..] + rest;
      assert DigitRun(d[1..]) == |d| - 1;
      DigitRunPrefix(d[1..], rest);
    } else {
      assert d + rest == rest;
    }
  }

  /** The text of a separated token sequence tokenizes back to the sequence. */
  lemma {:induction false} TokenizeRender(ts: seq<Token>)
    requires Separated(ts)
    ensures Tokenize(Render(ts)) == Some(ts)
    decreases |ts|
  {
    if ts != [] {
      var t, tail := ts[0], ts[1..];
      assert Separated(tail) by {
        forall i | 0 <= i < |tail| - 1 ensures !Clash(tail[i], tail[i + 1]) {
          assert tail[i] == ts[i + 1] && tail[i + 1] == ts[i + 2];
        }
      }
      TokenizeRender(tail);
      var r := Render(tail);
      assert Render(ts) == TokenText(t) + r;
      if tail != [] {
        assert !Clash(ts[0], ts[1]);
      }
      if t.TNum? {
        TokenizeNumeral(t.v, r);
      } else {
        TokenizeSymbol(t, r);
      }
      assert [t] + tail == ts;
    }
  }

  /** Two separated sequences stay separated side by side when their meeting tokens do not clash. */
  lemma SeparatedJoin(x: seq<Token>, y: seq<Token>)
    requires Separated(x) && Separated(y) && x != [] && y != [] && !Clash(x[|x| - 1], y[0])
    ensures Separated(x + y)
  {
    var z := x + y;
    forall i | 0 <= i < |z| ensures Writable(z[i]) {
      if i < |x| { assert z[i] == x[i]; } else { assert z[i] == y[i - |x|]; }
    }
    forall i | 0 <= i < |z| - 1 ensures !Clash(z[i], z[i + 1]) {
      if i < |x| - 1 {
        assert z[i] == x[i] && z[i + 1] == x[i + 1];
      } else if i >= |x| {
        assert z[i] == y[i - |x|] && z[i + 1] == y[i - |x| + 1];
      }
    }
  }

  /** Literals are writable numerals. */
  predicate Printable(e: Expr) {
    match e
    case Lit(v) => Numeric(v)
    case Negate(x) => Printable(x)
    case Binary(_, a, b) => Printable(a) && Printable(b)
  }

  /** The printed tokens of a tree, bare, are separated. */
  lemma {:induction false} BareSeparated(e: Expr)
    requires Printable(e)
    ensures Separated(Bare(e))
    decreases e, 0
  {
    match e
    case Lit(_) =>
    case Negate(x) =>
      var y := Print(x, 3, false);
      PrintSeparated(x, 3, false);
      PrintEdges(x, 3, false);
      SeparatedJoin([TMinus], y);
    case Binary(op, a, b) =>
      var x, y := Print(a, LeftNeed(op), false), Print(b, LeftNeed(op) + 1, op == Minus);
      PrintSeparated(a, LeftNeed(op), false);
      PrintSeparated(b, LeftNeed(op) + 1, op == Minus);
      PrintEdges(a, LeftNeed(op), false);
      PrintEdges(b, LeftNeed(op) + 1, op == Minus);
      SeparatedJoin(x, [OpToken(op)]);
      var xo := x + [OpToken(op)];
      assert xo[|xo| - 1] == OpToken(op);
      SeparatedJoin(xo, y);
      assert Bare(e) == xo + y;
  }

  /** The printed tokens of a tree, wherever it stands, are separated. */
  lemma {:induction false} PrintSeparated(e: Expr, need: nat, afterMinus: bool)
    requires Printable(e)
    ensures Separated(Print(e, need, afterMinus))
    decreases e, 1
  {
    BareSeparated(e);
    if Grouped(e, need, afterMinus) {
      Parenthesised(Bare(e));
    }
  }

  /** The text of a tree: its printed tokens written without spacing. */
  function Written(e: Expr): string {
    Render(Bare(e))
  }

  /** The text of a tree evaluates to the tree's value. */
  lemma EvaluateWritten(e: Expr)
    requires Printable(e)
    ensures Evaluate(Written(e)) == Some(Eval(e))
  {
    BareSeparated(e);
    TokenizeRender(Bare(e));
    ParseAllPrinted(e);
  }

  /** The characters of written tokens: digits, the point, the four operators and parentheses. */
  predicate WrittenChar(c: char) {
    IsDigit(c) || c == '.' || c == '+' || c == '-' || c == '*' || c == '/' || c == '(' || c == ')'
  }

  /** A writable numeral is written with digits and at most one point. */
  lemma NumeralChars(v: real)
    requires Numeric(v)
    ensures forall i :: 0 <= i < |Show(Finite(v))| ==> WrittenChar(Show(Finite(v))[i])
  {
    var d := NatToString(v.Floor);
    var t := FractionText(v - v.Floor as real);
    var s := d + t;
    assert Show(Finite(v)) == s;
    forall k | 0 <= k < |s| ensures WrittenChar(s[k]) {
      if k < |d| {
        assert s[k] == d[k];
      } else if k > |d| {
        assert s[k] == t[k - |d|];
        assert t[k - |d|] == FractionDigits(v - v.Floor as real, 20)[k - |d| - 1];
      }
    }
  }



  lemma {:induction false} RenderChars(ts: seq<Token>)
    requires forall i :: 0 <= i < |ts| ==> Writable(ts[i])
    ensures forall i :: 0 <= i < |Render(ts)| ==> WrittenChar(Render(ts)[i])
    decreases |ts|
  {
    if ts != [] {
      RenderChars(ts[1..]);
      var h, r := TokenText(ts[0]), Render(ts[1..]);
      if ts[0].TNum? { NumeralChars(ts[0].v); }
      assert forall i :: 0 <= i < |h| ==> WrittenChar(h[i]);
      assert Render(ts) == h + r;
      forall i | 0 <= i < |h + r| ensures WrittenChar((h + r)[i]) {
        if i >= |h| { assert (h + r)[i] == r[i - |h|]; }
      }
    }
  }

  /** Writing two token sequences one after the other writes their concatenation. */
  lemma {:induction false} RenderJoin(x: seq<Token>, y: seq<Token>)
    ensures Render(x + y) == Render(x) + Render(y)
    decreases |x|
  {
    if x != [] {
      var xy := x + y;
      assert xy[0] == x[0];
      assert xy[1..] == x[1..] + y;
      RenderJoin(x[1..], y);
      Associate(TokenText(x[0]), Render(x[1..]), Render(y));
    } else {
      assert x + y == y;
    }
  }

  /** The text of a tree holds only digits, points, operators and parentheses, and is not empty. */
  lemma WrittenChars(e: Expr)
    requires Printable(e)
    ensures Written(e) != [] && forall i :: 0 <= i < |Written(e)| ==> WrittenChar(Written(e)[i])
  {
    BareSeparated(e);
    RenderChars(Bare(e));
  }

  /** The text of a tree in parentheses reads as the tree's tokens in parentheses. */
  lemma TokenizeParenthesised(e: Expr)
    requires Printable(e)
    ensures Tokenize("(" + Written(e) + ")") == Some([TOpen] + Bare(e) + [TClose])
  {
    BareSeparated(e);
    Parenthesised(Bare(e));
    TokenizeRender([TOpen] + Bare(e) + [TClose]);
  }

  /** Parentheses around a separated sequence keep it separated and are written around its text. */
  lemma Parenthesised(te: seq<Token>)
    requires Separated(te) && te != []
    ensures Separated([TOpen] + te + [TClose])
    ensures Render([TOpen] + te + [TClose]) == "(" + Render(te) + ")"
  {
    SeparatedJoin([TOpen], te);
    var open := [TOpen] + te;
    assert open[|open| - 1] == te[|te| - 1];
    SeparatedJoin(open, [TClose]);
    RenderJoin([TOpen], te);
    RenderJoin(open, [TClose]);
    assert Render([TOpen]) == "(" && Render([TClose]) == ")";
  }


  /** The text of a tree in parentheses, as the spreadsheet hands it to JavaScript, evaluates to the tree's value. */
  lemma EvaluateParenthesised(e: Expr)
    requires Printable(e)
    ensures Evaluate("(" + Written(e) + ")") == Some(Eval(e))
  {
    TokenizeParenthesised(e);
    ParseAllGrouped(e);
  }

  // Precedence, associativity and numerals, stated on text.

  function OpText(op: Op): string {
    TokenText(OpToken(op))
  }

  /**
   * Three numerals joined by two operators: `*` and `/` after `+` or `-` bind first, and
   * otherwise the left operator applies first, so `8-3-2` is 3, `8/4/2` is 1 and `2+3*4` is 14.
   */
  lemma ThreeNumerals(x: real, o1: Op, y: real, o2: Op, z: real)
    requires Numeric(x) && Numeric(y) && Numeric(z)
    ensures Evaluate(Show(Finite(x)) + OpText(o1) + Show(Finite(y)) + OpText(o2) + Show(Finite(z)))
      == Some(if LeftNeed(o2) > LeftNeed(o1) then Apply(o1, Finite(x), Apply(o2, Finite(y), Finite(z)))
              else Apply(o2, Apply(o1, Finite(x), Finite(y)), Finite(z)))
  {
    var ts := [TNum(x), OpToken(o1), TNum(y), OpToken(o2), TNum(z)];
    var e := if LeftNeed(o2) > LeftNeed(o1) then Binary(o1, Lit(x), Binary(o2, Lit(y), Lit(z)))
      else Binary(o2, Binary(o1, Lit(x), Lit(y)), Lit(z));
    if LeftNeed(o2) > LeftNeed(o1) {
      TighterRight(x, o1, y, o2, z);
      assert Eval(Binary(o2, Lit(y), Lit(z))) == Apply(o2, Finite(y), Finite(z));
    } else {
      LeftFirst(x, o1, y, o2, z);
      assert Eval(Binary(o1, Lit(x), Lit(y))) == Apply(o1, Finite(x), Finite(y));
    }
    RenderFive(ts);
    EvaluateWritten(e);
  }

  /** `x o1 y o2 z` with `o2` binding tighter prints without parentheses. */
  lemma TighterRight(x: real, o1: Op, y: real, o2: Op, z: real)
    requires LeftNeed(o2) > LeftNeed(o1)
    ensures Bare(Binary(o1, Lit(x), Binary(o2, Lit(y), Lit(z)))) == [TNum(x), OpToken(o1), TNum(y), OpToken(o2), TNum(z)]
  {
    var r := Binary(o2, Lit(y), Lit(z));
    assert Print(Lit(y), LeftNeed(o2), false) == [TNum(y)];
    assert Print(Lit(z), LeftNeed(o2) + 1, o2 == Minus) == [TNum(z)];
    assert Bare(r) == [TNum(y), OpToken(o2), TNum(z)];
    assert !LeadsMinus(r);
    assert Print(r, LeftNeed(o1) + 1, o1 == Minus) == Bare(r);
    assert Print(Lit(x), LeftNeed(o1), false) == [TNum(x)];
  }

  /** `x o1 y o2 z` with `o1` binding at least as tight as `o2` prints without parentheses. */
  lemma LeftFirst(x: real, o1: Op, y: real, o2: Op, z: real)
    requires LeftNeed(o2) <= LeftNeed(o1)
    ensures Bare(Binary(o2, Binary(o1, Lit(x), Lit(y)), Lit(z))) == [TNum(x), OpToken(o1), TNum(y), OpToken(o2), TNum(z)]
  {
    var l := Binary(o1, Lit(x), Lit(y));
    assert Print(Lit(x), LeftNeed(o1), false) == [TNum(x)];
    assert Print(Lit(y), LeftNeed(o1) + 1, o1 == Minus) == [TNum(y)];
    assert Bare(l) == [TNum(x), OpToken(o1), TNum(y)];
    assert Print(l, LeftNeed(o2), false) == Bare(l);
    assert Print(Lit(z), LeftNeed(o2) + 1, o2 == Minus) == [TNum(z)];
  }

  /** The text of five tokens is their texts one after the other. */
  lemma RenderFive(ts: seq<Token>)
    requires |ts| == 5
    ensures Render(ts) == TokenText(ts[0]) + TokenText(ts[1]) + TokenText(ts[2]) + TokenText(ts[3]) + TokenText(ts[4])
  {
    RenderCons(ts, 4);
    RenderCons(ts, 3);
    RenderCons(ts, 2);
    RenderCons(ts, 1);
    RenderCons(ts, 0);
    assert ts[5..] == [] && ts[0..] == ts;
    Nest5(TokenText(ts[0]), TokenText(ts[1]), TokenText(ts[2]), TokenText(ts[3]), TokenText(ts[4]));
  }

  lemma Nest5(a: string, b: string, c: string, d: string, e: string)
    ensures a + (b + (c + (d + (e + "")))) == a + b + c + d + e
  {
    assert e + "" == e;
    Associate(d, e, "");
    Associate(c, d, e);
    Associate(b, c, d + e);
    Associate(b + c, d, e);
    Associate(a, b, c + (d + e));
    Associate(a, b + c, d + e);
    Associate(a + b, c, d + e);
    Associate(a + b + c, d, e);
  }

  /** Writing a suffix of a token sequence: its first token's text, then the rest. */
  lemma RenderCons(ts: seq<Token>, i: nat)
    requires i < |ts|
    ensures Render(ts[i..]) == TokenText(ts[i]) + Render(ts[i + 1..])
  {
    assert ts[i..][1..] == ts[i + 1..];
  }

  /** A numeral that starts with its point, such as `.5`, is read as the fraction its digits give. */
  lemma LeadingPoint(ds: string)
    requires ds != [] && AllDigits(ds)
    ensures Evaluate("." + ds) == Some(Finite(FractionValue(ds)))
  {
    var s := "" + ("." + ds) + "";
    var v := FractionValue(ds);
    NumeralWithPoint("", ds, "");
    var len: nat := |s|;
    assert s[len..] == [];
    TokenizeNumeralHead(s, v, len, []);
    assert Tokenize([]) == Some([]);
    assert [TNum(v)] + [] == [TNum(v)];
    assert Tokenize(s) == Some([TNum(v)]);
    assert s == "." + ds;
    ParseAllPrinted(Lit(v));
  }

}
