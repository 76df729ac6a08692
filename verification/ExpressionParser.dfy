/** The post-aggregation expression parser: a depth-guarded recursive descent over a byte string.

    Each `char` of an input stands for one byte of its UTF-8 encoding; every character the grammar
    looks for is ASCII, so no byte of a longer encoding is mistaken for one.  Numeric literals are
    kept as text. */
module ExpressionParser {
  import opened Common

  const MAX_EXPR_LEN: nat := 8 * 1024
  const MAX_PARSE_DEPTH: nat := 128

  datatype BinOp = Add | Sub | Mul | Div
  datatype Func = Round | Abs | Floor | Ceil

  datatype Node =
    | Literal(text: string)
    | Field(name: string)
    | Neg(operand: Node)
    | Binary(op: BinOp, lhs: Node, rhs: Node)
    | Call(func: Func, args: seq<Node>)

  datatype ParseError =
    | TooLong | TooDeep | TrailingInput | ExpectedClose | UnexpectedCharacter | UnexpectedEnd
    | UnterminatedQuote | EmptyQuote | NoFraction | NoExponent | UnsupportedFunction | BadArity

  /** What was parsed and the input that is left. */
  type Parsed<T> = Result<(T, string), ParseError>

  // ----- Characters -----------------------------------------------------------------------

  predicate IsSpace(c: char) { c == ' ' || c == '\t' || c == '\n' || c == '\r' || c == '\U{0C}' }
  predicate IsDigit(c: char) { '0' <= c <= '9' }
  predicate IsIdentStart(c: char) { 'a' <= c <= 'z' || 'A' <= c <= 'Z' || c == '_' || c == '$' }
  predicate IsIdentPart(c: char) { IsIdentStart(c) || IsDigit(c) }

  predicate StartsWith(s: string, c: char) { s != [] && s[0] == c }

  datatype CharClass = Digits | IdentParts | NoQuotes

  predicate In(k: CharClass, c: char) {
    match k
    case Digits => IsDigit(c)
    case IdentParts => IsIdentPart(c)
    case NoQuotes => c != '"'
  }

  /** The end of the run of characters of one class that starts at `i`. */
  function RunEnd(k: CharClass, s: string, i: nat): (e: nat)
    requires i <= |s|
    ensures i <= e <= |s|
    decreases |s| - i
  {
    if i < |s| && In(k, s[i]) then RunEnd(k, s, i + 1) else i
  }

  lemma {:induction false} RunEndMeaning(k: CharClass, s: string, i: nat)
    requires i <= |s|
    ensures forall j :: i <= j < RunEnd(k, s, i) ==> In(k, s[j])
    ensures RunEnd(k, s, i) < |s| ==> !In(k, s[RunEnd(k, s, i)])
    decreases |s| - i
  {
    if i < |s| && In(k, s[i]) {
      RunEndMeaning(k, s, i + 1);
    }
  }

  /** The end of a run is determined by what it means. */
  lemma {:induction false} RunEndsAt(k: CharClass, s: string, i: nat, e: nat)
    requires i <= e <= |s| && (forall j :: i <= j < e ==> In(k, s[j])) && (e < |s| ==> !In(k, s[e]))
    ensures RunEnd(k, s, i) == e
    decreases |s| - i
  {
    if i < e {
      RunEndsAt(k, s, i + 1, e);
    }
  }

  function SkipSpace(s: string): (t: string)
    ensures |t| <= |s|
    ensures t == [] || !IsSpace(t[0])
  {
    if s != [] && IsSpace(s[0]) then SkipSpace(s[1..]) else s
  }

  predicate AllSpace(w: string) { forall i :: 0 <= i < |w| ==> IsSpace(w[i]) }

  lemma {:induction false} SkipSpaceOver(w: string, s: string)
    requires AllSpace(w)
    ensures SkipSpace(w + s) == SkipSpace(s)
    decreases |w|
  {
    if w == [] {
      assert w + s == s;
    } else {
      assert (w + s)[1..] == w[1..] + s;
      SkipSpaceOver(w[1..], s);
    }
  }

  lemma SkipSpaceStops(s: string)
    requires s == [] || !IsSpace(s[0])
    ensures SkipSpace(s) == s
  {
  }

  lemma SkipSpaceTwice(s: string)
    ensures SkipSpace(SkipSpace(s)) == SkipSpace(s)
  {
    SkipSpaceStops(SkipSpace(s));
  }

  /** The spaces that `SkipSpace` skips. */
  ghost function LeadingSpace(s: string): (w: string)
    ensures AllSpace(w) && s == w + SkipSpace(s)
  {
    if s != [] && IsSpace(s[0]) then [s[0]] + LeadingSpace(s[1..]) else []
  }

  // ----- Lexemes --------------------------------------------------------------------------

  /** The length of the numeric literal at the front of `s`:
      digits, an optional fraction and an optional exponent. */
  function NumberLength(s: string): (r: Result<nat, ParseError>)
    ensures r.Ok? ==> r.value <= |s|
  {
    var f := FractionEnd(s, RunEnd(Digits, s, 0));
    if f.Err? then f else ExponentEnd(s, f.value)
  }

  function FractionEnd(s: string, i: nat): (r: Result<nat, ParseError>)
    requires i <= |s|
    ensures r.Ok? ==> i <= r.value <= |s|
  {
    if i < |s| && s[i] == '.' then
      var f := RunEnd(Digits, s, i + 1);
      if f == i + 1 then Err(NoFraction) else Ok(f)
    else Ok(i)
  }

  function ExponentEnd(s: string, i: nat): (r: Result<nat, ParseError>)
    requires i <= |s|
    ensures r.Ok? ==> i <= r.value <= |s|
  {
    if i < |s| && (s[i] == 'e' || s[i] == 'E') then
      var d := if i + 1 < |s| && (s[i + 1] == '+' || s[i + 1] == '-') then i + 2 else i + 1;
      var e := RunEnd(Digits, s, d);
      if e == d then Err(NoExponent) else Ok(e)
    else Ok(i)
  }

  predicate IsNumber(text: string) {
    text != [] && IsDigit(text[0]) && NumberLength(text) == Ok(|text|)
  }

  predicate IsIdentifier(name: string) {
    name != [] && IsIdentStart(name[0]) && forall i :: 0 <= i < |name| ==> IsIdentPart(name[i])
  }

  predicate IsQuotable(name: string) {
    name != [] && '"' !in name
  }

  function FuncName(f: Func): string {
    match f
    case Round => "round"
    case Abs => "abs"
    case Floor => "floor"
    case Ceil => "ceil"
  }

  function FuncNamed(name: string): Option<Func> {
    if name == "round" then Some(Round)
    else if name == "abs" then Some(Abs)
    else if name == "floor" then Some(Floor)
    else if name == "ceil" then Some(Ceil)
    else None
  }

  predicate ArityOk(f: Func, n: nat) {
    n == 1 || (f == Round && n == 2)
  }

  function OpChar(op: BinOp): char {
    match op
    case Add => '+'
    case Sub => '-'
    case Mul => '*'
    case Div => '/'
  }

  predicate IsAdditive(op: BinOp) { op == Add || op == Sub }

  function AdditiveOp(s: string): Option<BinOp> {
    if StartsWith(s, '+') then Some(Add) else if StartsWith(s, '-') then Some(Sub) else None
  }

  function MultiplicativeOp(s: string): Option<BinOp> {
    if StartsWith(s, '*') then Some(Mul) else if StartsWith(s, '/') then Some(Div) else None
  }

  // ----- The parser as a function of the remaining input -----------------------------------

  function ParseAdditive(s: string, depth: nat): (r: Parsed<Node>)
    ensures r.Ok? ==> |r.value.1| < |s|
    decreases |s|, 5
  {
    if depth + 1 > MAX_PARSE_DEPTH then Err(TooDeep) else AdditiveInner(s, depth + 1)
  }

  function AdditiveInner(s: string, depth: nat): (r: Parsed<Node>)
    ensures r.Ok? ==> |r.value.1| < |s|
    decreases |s|, 4
  {
    match ParseMultiplicative(s, depth)
    case Err(e) => Err(e)
    case Ok((lhs, rest)) => AdditiveLoop(lhs, rest, depth)
  }

  function AdditiveLoop(lhs: Node, s: string, depth: nat): (r: Parsed<Node>)
    ensures r.Ok? ==> |r.value.1| <= |s|
    decreases |s|, 3
  {
    var t := SkipSpace(s);
    match AdditiveOp(t)
    case None => Ok((lhs, t))
    case Some(op) =>
      match ParseMultiplicative(t[1..], depth)
      case Err(e) => Err(e)
      case Ok((rhs, rest)) => AdditiveLoop(Binary(op, lhs, rhs), rest, depth)
  }

  function ParseMultiplicative(s: string, depth: nat): (r: Parsed<Node>)
    ensures r.Ok? ==> |r.value.1| < |s|
    decreases |s|, 3
  {
    match ParseUnary(s, depth)
    case Err(e) => Err(e)
    case Ok((lhs, rest)) => MultiplicativeLoop(lhs, rest, depth)
  }

  function MultiplicativeLoop(lhs: Node, s: string, depth: nat): (r: Parsed<Node>)
    ensures r.Ok? ==> |r.value.1| <= |s|
    decreases |s|, 2
  {
    var t := SkipSpace(s);
    match MultiplicativeOp(t)
    case None => Ok((lhs, t))
    case Some(op) =>
      match ParseUnary(t[1..], depth)
      case Err(e) => Err(e)
      case Ok((rhs, rest)) => MultiplicativeLoop(Binary(op, lhs, rhs), rest, depth)
  }

  function ParseUnary(s: string, depth: nat): (r: Parsed<Node>)
    ensures r.Ok? ==> |r.value.1| < |s|
    decreases |s|, 2
  {
    if depth + 1 > MAX_PARSE_DEPTH then Err(TooDeep)
    else
      var t := SkipSpace(s);
      if StartsWith(t, '-') then
        match ParseUnary(t[1..], depth + 1)
        case Err(e) => Err(e)
        case Ok((inner, rest)) => Ok((Neg(inner), rest))
      else ParsePrimary(t, depth + 1)
  }

  function ParsePrimary(s: string, depth: nat): (r: Parsed<Node>)
    ensures r.Ok? ==> |r.value.1| < |s|
    decreases |s|, 1, 1
  {
    ParseToken(SkipSpace(s), depth)
  }

  function ParseToken(t: string, depth: nat): (r: Parsed<Node>)
    ensures r.Ok? ==> |r.value.1| < |t|
    decreases |t|, 1, 0
  {
    if t == [] then Err(UnexpectedEnd)
    else if t[0] == '(' then CloseGroup(ParseAdditive(t[1..], depth))
    else if t[0] == '"' then ParseQuoted(t)
    else if IsDigit(t[0]) then ParseNumber(t)
    else if IsIdentStart(t[0]) then ParseNamed(t, depth)
    else Err(UnexpectedCharacter)
  }

  /** The end of a parenthesized expression, given the outcome of what is inside. */
  function CloseGroup(r: Parsed<Node>): (r': Parsed<Node>)
    ensures r'.Ok? ==> r.Ok? && |r'.value.1| < |r.value.1|
  {
    if r.Err? then r
    else
      var u := SkipSpace(r.value.1);
      if StartsWith(u, ')') then Ok((r.value.0, u[1..])) else Err(ExpectedClose)
  }

  /** A bare identifier, or a call when an opening parenthesis follows it. */
  function ParseNamed(s: string, depth: nat): (r: Parsed<Node>)
    requires s != [] && IsIdentStart(s[0])
    ensures r.Ok? ==> |r.value.1| < |s|
    decreases |s|, 0
  {
    var n := RunEnd(IdentParts, s, 0);
    assert In(IdentParts, s[0]) && n == RunEnd(IdentParts, s, 1) >= 1;
    var u := SkipSpace(s[n..]);
    if !StartsWith(u, '(') then Ok((Field(s[..n]), u))
    else
      match FuncNamed(s[..n])
      case None => Err(UnsupportedFunction)
      case Some(f) => CloseCall(f, ParseArgs(u[1..], depth))
  }

  /** The end of a call, given the outcome of its arguments. */
  function CloseCall(f: Func, r: Parsed<seq<Node>>): (r': Parsed<Node>)
    ensures r'.Ok? ==> r.Ok? && |r'.value.1| < |r.value.1|
  {
    if r.Err? then Err(r.error)
    else
      var v := SkipSpace(r.value.1);
      if !StartsWith(v, ')') then Err(ExpectedClose)
      else if !ArityOk(f, |r.value.0|) then Err(BadArity)
      else Ok((Call(f, r.value.0), v[1..]))
  }

  function ParseArgs(s: string, depth: nat): (r: Parsed<seq<Node>>)
    ensures r.Ok? ==> |r.value.1| < |s| && r.value.0 != []
    decreases |s|, 6
  {
    match ParseAdditive(s, depth)
    case Err(e) => Err(e)
    case Ok((arg, rest)) =>
      var t := SkipSpace(rest);
      if StartsWith(t, ',') then
        match ParseArgs(t[1..], depth)
        case Err(e) => Err(e)
        case Ok((args, rest')) => Ok(([arg] + args, rest'))
      else Ok(([arg], t))
  }

  function ParseQuoted(s: string): (r: Parsed<Node>)
    requires StartsWith(s, '"')
    ensures r.Ok? ==> |r.value.1| < |s|
  {
    var q := RunEnd(NoQuotes, s, 1);
    if q == |s| then Err(UnterminatedQuote)
    else if q == 1 then Err(EmptyQuote)
    else Ok((Field(s[1..q]), s[q + 1..]))
  }

  function ParseNumber(s: string): (r: Parsed<Node>)
    requires s != [] && IsDigit(s[0])
    ensures r.Ok? ==> |r.value.1| < |s|
  {
    assert RunEnd(Digits, s, 0) >= 1;
    match NumberLength(s)
    case Err(e) => Err(e)
    case Ok(n) => Ok((Literal(s[..n]), s[n..]))
  }

  function Parse(input: string): Result<Node, ParseError> {
    if |input| > MAX_EXPR_LEN then Err(TooLong)
    else
      match ParseAdditive(input, 0)
      case Err(e) => Err(e)
      case Ok((root, rest)) => if SkipSpace(rest) == [] then Ok(root) else Err(TrailingInput)
  }
}
