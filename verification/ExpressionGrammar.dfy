/** The grammar of post-aggregation expressions and the proof that the parser accepts exactly its
    sentences, within the nesting and length limits, and returns the tree each of them denotes.

    A sentence is given by a concrete syntax tree that records every space, pair of parentheses and
    spelling; `Ast` forgets them. */
module ExpressionGrammar {
  import opened Common
  import opened ExpressionParser

  datatype Cst =
    | Number(space: string, text: string)
    | Quoted(space: string, name: string)
    | Name(space: string, name: string)
    | Minus(space: string, operand: Cst)
    | Paren(space: string, inner: Cst, close: string)
    | Infix(lhs: Cst, space: string, op: BinOp, rhs: Cst)
    | Apply(space: string, func: Func, open: string, args: Args, close: string)

  datatype Args = Last(arg: Cst) | More(arg: Cst, comma: string, rest: Args)

  function Print(c: Cst): string {
    match c
    case Number(w, text) => w + text
    case Quoted(w, name) => w + (['"'] + name + ['"'])
    case Name(w, name) => w + name
    case Minus(w, e) => w + (['-'] + Print(e))
    case Paren(w, e, w') => w + (['('] + (Print(e) + (w' + [')'])))
    case Infix(l, w, op, r) => Print(l) + (w + ([OpChar(op)] + Print(r)))
    case Apply(w, f, o, args, w') => w + (FuncName(f) + (o + (['('] + (PrintArgs(args) + (w' + [')'])))))
  }

  function PrintArgs(args: Args): string {
    match args
    case Last(e) => Print(e)
    case More(e, w, rest) => Print(e) + (w + ([','] + PrintArgs(rest)))
  }

  function Ast(c: Cst): Node {
    match c
    case Number(_, text) => Literal(text)
    case Quoted(_, name) => Field(name)
    case Name(_, name) => Field(name)
    case Minus(_, e) => Neg(Ast(e))
    case Paren(_, e, _) => Ast(e)
    case Infix(l, _, op, r) => Binary(op, Ast(l), Ast(r))
    case Apply(_, f, _, args, _) => Call(f, AstArgs(args))
  }

  function AstArgs(args: Args): seq<Node> {
    match args
    case Last(e) => [Ast(e)]
    case More(e, _, rest) => [Ast(e)] + AstArgs(rest)
  }

  /** A sum may stand at level 0, a product at levels 0 and 1, anything else anywhere.  The left
      operand of an operator may be another of its own kind, the right operand may not. */
  predicate Wf(c: Cst, level: nat) {
    match c
    case Number(w, text) => AllSpace(w) && IsNumber(text)
    case Quoted(w, name) => AllSpace(w) && IsQuotable(name)
    case Name(w, name) => AllSpace(w) && IsIdentifier(name)
    case Minus(w, e) => AllSpace(w) && Wf(e, 2)
    case Paren(w, e, w') => AllSpace(w) && AllSpace(w') && Wf(e, 0)
    case Infix(l, w, op, r) =>
      AllSpace(w) && if IsAdditive(op) then level == 0 && Wf(l, 0) && Wf(r, 1) else level <= 1 && Wf(l, 1) && Wf(r, 2)
    case Apply(w, f, o, args, w') =>
      AllSpace(w) && AllSpace(o) && AllSpace(w') && WfArgs(args) && ArityOk(f, |AstArgs(args)|)
  }

  predicate WfArgs(args: Args) {
    match args
    case Last(e) => Wf(e, 0)
    case More(e, w, rest) => AllSpace(w) && Wf(e, 0) && WfArgs(rest)
  }

  function Max(a: nat, b: nat): nat { if a > b then a else b }

  /** The parser depth a sentence needs below the level at which its operands are parsed. */
  function Need(c: Cst): (n: nat)
    ensures n >= 1
  {
    match c
    case Number(_, _) => 1
    case Quoted(_, _) => 1
    case Name(_, _) => 1
    case Minus(_, e) => 1 + Need(e)
    case Paren(_, e, _) => 2 + Need(e)
    case Infix(l, _, _, r) => Max(Need(l), Need(r))
    case Apply(_, _, _, args, _) => 2 + NeedArgs(args)
  }

  function NeedArgs(args: Args): (n: nat)
    ensures n >= 1
  {
    match args
    case Last(e) => Need(e)
    case More(e, _, rest) => Max(Need(e), NeedArgs(rest))
  }

  // ----- Every sentence parses ------------------------------------------------------------

  /** What may follow an operand. */
  predicate Follows(rest: string) {
    var t := SkipSpace(rest);
    t == [] || AdditiveOp(t).Some? || MultiplicativeOp(t).Some? || t[0] == ')' || t[0] == ','
  }

  predicate FollowsSum(rest: string) {
    Follows(rest) && MultiplicativeOp(SkipSpace(rest)).None?
  }

  predicate FollowsAll(rest: string) {
    FollowsSum(rest) && AdditiveOp(SkipSpace(rest)).None?
  }

  ghost predicate Gives<T>(r: Parsed<T>, need: nat, value: T, rest: string) {
    if need <= MAX_PARSE_DEPTH then r.Ok? && r.value.0 == value && SkipSpace(r.value.1) == SkipSpace(rest)
    else r == Err(TooDeep)
  }

  lemma FollowsBreaks(rest: string)
    requires Follows(rest)
    ensures rest == [] || (!IsIdentPart(rest[0]) && rest[0] != '.')
  {
    if rest != [] && !IsSpace(rest[0]) {
      SkipSpaceStops(rest);
    }
  }

  lemma RunExtends(k: CharClass, s: string, rest: string, i: nat)
    requires i <= |s| && (rest == [] || !In(k, rest[0]))
    ensures RunEnd(k, s + rest, i) == RunEnd(k, s, i)
  {
    RunEndMeaning(k, s, i);
    RunEndsAt(k, s + rest, i, RunEnd(k, s, i));
  }

  lemma NumberExtends(text: string, rest: string)
    requires IsNumber(text) && (rest == [] || (!IsIdentPart(rest[0]) && rest[0] != '.'))
    ensures NumberLength(text + rest) == Ok(|text|)
  {
    var i := RunEnd(Digits, text, 0);
    RunExtends(Digits, text, rest, 0);
    if i < |text| && text[i] == '.' {
      RunExtends(Digits, text, rest, i + 1);
      ExponentExtends(text, rest, RunEnd(Digits, text, i + 1));
    } else {
      ExponentExtends(text, rest, i);
    }
  }

  lemma ExponentExtends(text: string, rest: string, i: nat)
    requires i <= |text| && ExponentEnd(text, i) == Ok(|text|)
    requires rest == [] || (!IsIdentPart(rest[0]) && rest[0] != '.')
    ensures ExponentEnd(text + rest, i) == Ok(|text|)
  {
    if i < |text| {
      var d := if i + 1 < |text| && (text[i + 1] == '+' || text[i + 1] == '-') then i + 2 else i + 1;
      RunExtends(Digits, text, rest, d);
    }
  }

  lemma PrimaryIsToken(s: string, depth: nat)
    requires s != [] && !IsSpace(s[0])
    ensures ParsePrimary(s, depth) == ParseToken(s, depth)
  {
    SkipSpaceStops(s);
  }

  lemma PrimaryNumber(text: string, rest: string, depth: nat)
    requires IsNumber(text) && Follows(rest)
    ensures ParsePrimary(text + rest, depth) == Ok((Literal(text), rest))
  {
    PrimaryIsToken(text + rest, depth);
    FrontNumber(text, rest);
  }

  lemma FrontNumber(text: string, rest: string)
    requires IsNumber(text) && Follows(rest)
    ensures ParseNumber(text + rest) == Ok((Literal(text), rest))
  {
    FollowsBreaks(rest);
    NumberExtends(text, rest);
    assert (text + rest)[..|text|] == text && (text + rest)[|text|..] == rest;
  }

  lemma PrimaryQuoted(name: string, rest: string, depth: nat)
    requires IsQuotable(name)
    ensures ParsePrimary(['"'] + name + ['"'] + rest, depth) == Ok((Field(name), rest))
  {
    PrimaryIsToken(['"'] + name + ['"'] + rest, depth);
    FrontQuoted(name, rest);
  }

  lemma FrontQuoted(name: string, rest: string)
    requires IsQuotable(name)
    ensures ParseQuoted(['"'] + name + ['"'] + rest) == Ok((Field(name), rest))
  {
    var s := ['"'] + name + ['"'] + rest;
    RunEndsAt(NoQuotes, s, 1, |name| + 1);
    assert s[1..|name| + 1] == name && s[|name| + 2..] == rest;
  }

  lemma IdentifierRun(name: string, rest: string)
    requires IsIdentifier(name) && (rest == [] || !IsIdentPart(rest[0]))
    ensures RunEnd(IdentParts, name + rest, 0) == |name|
    ensures (name + rest)[..|name|] == name && (name + rest)[|name|..] == rest
    ensures SkipSpace(name + rest) == name + rest
  {
    RunEndsAt(IdentParts, name + rest, 0, |name|);
    SkipSpaceStops(name + rest);
  }

  lemma PrimaryIsNamed(s: string, depth: nat)
    requires s != [] && IsIdentStart(s[0])
    ensures ParsePrimary(s, depth) == ParseNamed(s, depth)
  {
    PrimaryIsToken(s, depth);
  }

  lemma PrimaryName(name: string, rest: string, depth: nat)
    requires IsIdentifier(name) && Follows(rest)
    ensures ParsePrimary(name + rest, depth) == Ok((Field(name), SkipSpace(rest)))
  {
    PrimaryIsNamed(name + rest, depth);
    NamedField(name, rest, depth);
  }

  lemma NamedField(name: string, rest: string, depth: nat)
    requires IsIdentifier(name) && Follows(rest)
    ensures ParseNamed(name + rest, depth) == Ok((Field(name), SkipSpace(rest)))
  {
    FollowsBreaks(rest);
    IdentifierRun(name, rest);
  }

  lemma CallName(f: Func)
    ensures IsIdentifier(FuncName(f)) && FuncNamed(FuncName(f)) == Some(f)
  {
  }

  lemma OpenNext(o: string, s: string)
    requires AllSpace(o)
    ensures var tail := o + (['('] + s);
            tail != [] && !IsIdentPart(tail[0]) && SkipSpace(tail) == ['('] + s && (['('] + s)[1..] == s
  {
    SkipSpaceOver(o, ['('] + s);
    SkipSpaceStops(['('] + s);
  }

  lemma NamedCall(name: string, tail: string, s: string, depth: nat, f: Func)
    requires IsIdentifier(name) && FuncNamed(name) == Some(f)
    requires tail != [] && !IsIdentPart(tail[0]) && SkipSpace(tail) == ['('] + s && (['('] + s)[1..] == s
    ensures ParsePrimary(name + tail, depth) == CloseCall(f, ParseArgs(s, depth))
  {
    IdentifierRun(name, tail);
    PrimaryIsNamed(name + tail, depth);
  }

  lemma PrimaryApply(f: Func, o: string, s: string, depth: nat)
    requires AllSpace(o)
    ensures ParsePrimary(FuncName(f) + (o + (['('] + s)), depth) == CloseCall(f, ParseArgs(s, depth))
  {
    CallName(f);
    OpenNext(o, s);
    NamedCall(FuncName(f), o + (['('] + s), s, depth, f);
  }

  /** A token after spaces, at the unary level. */
  lemma UnaryIsPrimary(w: string, s: string, depth: nat)
    requires AllSpace(w) && s != [] && !IsSpace(s[0]) && s[0] != '-'
    ensures ParseUnary(w + s, depth) == if depth + 1 > MAX_PARSE_DEPTH then Err(TooDeep) else ParsePrimary(s, depth + 1)
  {
    SkipSpaceOver(w, s);
    SkipSpaceStops(s);
  }

  ghost function Negated(r: Parsed<Node>): Parsed<Node> {
    if r.Err? then r else Ok((Neg(r.value.0), r.value.1))
  }

  lemma NegatedGives(r: Parsed<Node>, need: nat, value: Node, rest: string)
    requires Gives(r, need, value, rest)
    ensures Gives(Negated(r), need, Neg(value), rest)
  {
  }

  lemma SkippedGives(need: nat, value: Node, rest: string)
    requires need <= MAX_PARSE_DEPTH
    ensures Gives(Ok((value, SkipSpace(rest))), need, value, rest)
  {
    SkipSpaceTwice(rest);
  }

  lemma UnaryMinus(w: string, s: string, depth: nat)
    requires AllSpace(w)
    ensures ParseUnary(w + (['-'] + s), depth) ==
            if depth + 1 > MAX_PARSE_DEPTH then Err(TooDeep)
            else
              Negated(ParseUnary(s, depth + 1))
  {
    SkipSpaceOver(w, ['-'] + s);
    SkipSpaceStops(['-'] + s);
    assert (['-'] + s)[1..] == s;
  }

  lemma PrimaryParen(s: string, depth: nat)
    ensures ParsePrimary(['('] + s, depth) == CloseGroup(ParseAdditive(s, depth))
  {
    PrimaryIsToken(['('] + s, depth);
    assert (['('] + s)[1..] == s;
  }

  lemma ClosingNext(w: string, rest: string)
    requires AllSpace(w)
    ensures SkipSpace(w + ([')'] + rest)) == [')'] + rest && ([')'] + rest)[1..] == rest
    ensures FollowsAll(w + ([')'] + rest))
  {
    SkipSpaceOver(w, [')'] + rest);
    SkipSpaceStops([')'] + rest);
  }

  lemma NumberParses(w: string, text: string, rest: string, depth: nat)
    requires AllSpace(w) && IsNumber(text) && Follows(rest)
    ensures Gives(ParseUnary(w + text + rest, depth), depth + 1, Literal(text), rest)
  {
    assert w + text + rest == w + (text + rest);
    UnaryIsPrimary(w, text + rest, depth);
    PrimaryNumber(text, rest, depth + 1);
  }

  lemma QuotedParses(w: string, name: string, rest: string, depth: nat)
    requires AllSpace(w) && IsQuotable(name)
    ensures Gives(ParseUnary(w + (['"'] + name + ['"']) + rest, depth), depth + 1, Field(name), rest)
  {
    var s := ['"'] + name + ['"'] + rest;
    assert w + (['"'] + name + ['"']) + rest == w + s;
    UnaryIsPrimary(w, s, depth);
    PrimaryQuoted(name, rest, depth + 1);
  }

  lemma NameParses(w: string, name: string, rest: string, depth: nat)
    requires AllSpace(w) && IsIdentifier(name) && Follows(rest)
    ensures Gives(ParseUnary(w + name + rest, depth), depth + 1, Field(name), rest)
  {
    PrimaryName(name, rest, depth + 1);
    SkippedPrimary(w, name, rest, depth, Field(name));
  }

  lemma SkippedPrimary(w: string, token: string, rest: string, depth: nat, value: Node)
    requires AllSpace(w) && token != [] && !IsSpace(token[0]) && token[0] != '-'
    requires ParsePrimary(token + rest, depth + 1) == Ok((value, SkipSpace(rest)))
    ensures Gives(ParseUnary(w + token + rest, depth), depth + 1, value, rest)
  {
    assert w + token + rest == w + (token + rest);
    UnaryIsPrimary(w, token + rest, depth);
    if depth + 1 <= MAX_PARSE_DEPTH {
      SkippedGives(depth + 1, value, rest);
    }
  }

  lemma {:induction false} UnaryParses(c: Cst, rest: string, depth: nat)
    requires Wf(c, 2) && Follows(rest)
    ensures Gives(ParseUnary(Print(c) + rest, depth), depth + Need(c), Ast(c), rest)
    decreases c, 0
  {
    match c
    case Number(w, text) => NumberParses(w, text, rest, depth);
    case Quoted(w, name) => QuotedParses(w, name, rest, depth);
    case Name(w, name) => NameParses(w, name, rest, depth);
    case Minus(w, e) => MinusParses(w, e, rest, depth);
    case Paren(w, e, w') => ParenParses(w, e, w', rest, depth);
    case Apply(w, f, o, args, w') => ApplyParses(w, f, o, args, w', rest, depth);
  }

  lemma {:induction false} MinusParses(w: string, e: Cst, rest: string, depth: nat)
    requires AllSpace(w) && Wf(e, 2) && Follows(rest)
    ensures Gives(ParseUnary(w + (['-'] + Print(e)) + rest, depth), depth + 1 + Need(e), Neg(Ast(e)), rest)
    decreases e, 5
  {
    assert w + (['-'] + Print(e)) + rest == w + (['-'] + (Print(e) + rest));
    UnaryMinus(w, Print(e) + rest, depth);
    UnaryParses(e, rest, depth + 1);
    NegatedGives(ParseUnary(Print(e) + rest, depth + 1), depth + 1 + Need(e), Ast(e), rest);
  }

  lemma ClosedGives<T>(r: Parsed<T>, need: nat, value: T, w: string, rest: string)
    requires AllSpace(w) && Gives(r, need, value, w + ([')'] + rest))
    ensures if need <= MAX_PARSE_DEPTH
            then && r.Ok? && r.value.0 == value
                 && StartsWith(SkipSpace(r.value.1), ')') && SkipSpace(r.value.1)[1..] == rest
            else r == Err(TooDeep)
  {
    ClosingNext(w, rest);
  }

  lemma {:induction false} ParenParses(w: string, e: Cst, w': string, rest: string, depth: nat)
    requires Wf(Paren(w, e, w'), 2)
    ensures Gives(ParseUnary(Print(Paren(w, e, w')) + rest, depth), depth + 2 + Need(e), Ast(e), rest)
    decreases e, 5
  {
    var tail := w' + ([')'] + rest);
    assert Print(Paren(w, e, w')) + rest == w + (['('] + (Print(e) + tail));
    UnaryIsPrimary(w, ['('] + (Print(e) + tail), depth);
    PrimaryParen(Print(e) + tail, depth + 1);
    ClosingNext(w', rest);
    AdditiveParses(e, tail, depth + 1);
    ClosedGives(ParseAdditive(Print(e) + tail, depth + 1), depth + 2 + Need(e), Ast(e), w', rest);
  }

  lemma CallGives(f: Func, r: Parsed<seq<Node>>, need: nat, args: seq<Node>, w: string, rest: string)
    requires AllSpace(w) && Gives(r, need, args, w + ([')'] + rest)) && ArityOk(f, |args|)
    ensures Gives(CloseCall(f, r), need, Call(f, args), rest)
  {
    ClosedGives(r, need, args, w, rest);
  }

  lemma {:induction false} ApplyParses(w: string, f: Func, o: string, args: Args, w': string, rest: string, depth: nat)
    requires AllSpace(w) && AllSpace(o) && AllSpace(w') && WfArgs(args) && ArityOk(f, |AstArgs(args)|)
    ensures Gives(ParseUnary(Print(Apply(w, f, o, args, w')) + rest, depth),
                  depth + 2 + NeedArgs(args), Call(f, AstArgs(args)), rest)
    decreases args, 5
  {
    var tail := w' + ([')'] + rest);
    var inner := PrintArgs(args) + tail;
    assert Print(Apply(w, f, o, args, w')) + rest == w + (FuncName(f) + (o + (['('] + inner)));
    ApplyUnary(w, f, o, inner, depth);
    ClosingNext(w', rest);
    ArgsParse(args, tail, depth + 1);
    CallGives(f, ParseArgs(inner, depth + 1), depth + 2 + NeedArgs(args), AstArgs(args), w', rest);
  }

  lemma CallHead(f: Func, tail: string)
    ensures var s := FuncName(f) + tail; s != [] && !IsSpace(s[0]) && s[0] != '-'
  {
  }

  lemma ApplyUnary(w: string, f: Func, o: string, inner: string, depth: nat)
    requires AllSpace(w) && AllSpace(o)
    ensures ParseUnary(w + (FuncName(f) + (o + (['('] + inner))), depth) ==
            if depth + 1 > MAX_PARSE_DEPTH then Err(TooDeep)
            else CloseCall(f, ParseArgs(inner, depth + 1))
  {
    CallHead(f, o + (['('] + inner));
    UnaryIsPrimary(w, FuncName(f) + (o + (['('] + inner)), depth);
    PrimaryApply(f, o, inner, depth + 1);
  }

  lemma {:induction false} ArgsParse(args: Args, rest: string, depth: nat)
    requires WfArgs(args) && StartsWith(SkipSpace(rest), ')')
    ensures Gives(ParseArgs(PrintArgs(args) + rest, depth), depth + 1 + NeedArgs(args), AstArgs(args), rest)
    decreases args, 4
  {
    match args
    case Last(e) =>
      AdditiveParses(e, rest, depth);
      LastArg(Print(e) + rest, depth, depth + 1 + Need(e), Ast(e), rest);
    case More(e, w, more) =>
      var next := PrintArgs(more) + rest;
      assert PrintArgs(args) + rest == Print(e) + (w + ([','] + next));
      CommaNext(w, next);
      AdditiveParses(e, w + ([','] + next), depth);
      ArgsParse(more, rest, depth);
      MoreArgs(Print(e) + (w + ([','] + next)), depth, depth + 1 + Need(e), Ast(e), w, next);
  }

  lemma CommaNext(w: string, next: string)
    requires AllSpace(w)
    ensures var tail := w + ([','] + next);
            FollowsAll(tail) && SkipSpace(tail) == [','] + next && ([','] + next)[1..] == next
  {
    SkipSpaceOver(w, [','] + next);
    SkipSpaceStops([','] + next);
  }

  lemma LastArg(s: string, depth: nat, need: nat, value: Node, rest: string)
    requires Gives(ParseAdditive(s, depth), need, value, rest) && StartsWith(SkipSpace(rest), ')')
    ensures Gives(ParseArgs(s, depth), need, [value], rest)
  {
    SkipSpaceTwice(rest);
  }

  lemma MoreArgs(s: string, depth: nat, need: nat, value: Node, w: string, next: string)
    requires AllSpace(w) && Gives(ParseAdditive(s, depth), need, value, w + ([','] + next))
    ensures ParseArgs(s, depth) ==
            if need > MAX_PARSE_DEPTH then Err(TooDeep)
            else
              var r := ParseArgs(next, depth);
              if r.Err? then r else Ok(([value] + r.value.0, r.value.1))
  {
    CommaNext(w, next);
  }

  lemma MultiplicativeLoopSkips(lhs: Node, s: string, s': string, depth: nat)
    requires SkipSpace(s) == SkipSpace(s')
    ensures MultiplicativeLoop(lhs, s, depth) == MultiplicativeLoop(lhs, s', depth)
  {
  }

  lemma AdditiveLoopSkips(lhs: Node, s: string, s': string, depth: nat)
    requires SkipSpace(s) == SkipSpace(s')
    ensures AdditiveLoop(lhs, s, depth) == AdditiveLoop(lhs, s', depth)
  {
  }

  /** After an operator and the spaces before it. */
  lemma OperatorNext(w: string, op: BinOp, s: string)
    requires AllSpace(w)
    ensures var t := [OpChar(op)] + s;
            && SkipSpace(w + t) == t && t[1..] == s && Follows(w + t)
            && (IsAdditive(op) ==> AdditiveOp(t) == Some(op) && FollowsSum(w + t))
            && (!IsAdditive(op) ==> MultiplicativeOp(t) == Some(op))
  {
    SkipSpaceOver(w, [OpChar(op)] + s);
    SkipSpaceStops([OpChar(op)] + s);
  }

  lemma MultiplicativeStep(lhs: Node, w: string, op: BinOp, s: string, depth: nat)
    requires AllSpace(w) && !IsAdditive(op)
    ensures MultiplicativeLoop(lhs, w + ([OpChar(op)] + s), depth) ==
            var r := ParseUnary(s, depth);
            if r.Err? then r else MultiplicativeLoop(Binary(op, lhs, r.value.0), r.value.1, depth)
  {
    OperatorNext(w, op, s);
  }

  lemma AdditiveStep(lhs: Node, w: string, op: BinOp, s: string, depth: nat)
    requires AllSpace(w) && IsAdditive(op)
    ensures AdditiveLoop(lhs, w + ([OpChar(op)] + s), depth) ==
            var r := ParseMultiplicative(s, depth);
            if r.Err? then r else AdditiveLoop(Binary(op, lhs, r.value.0), r.value.1, depth)
  {
    OperatorNext(w, op, s);
  }

  /** A unary operand, then whatever the product loop makes of the rest. */
  lemma UnaryThenLoop(lhs: Node, r: Parsed<Node>, need: nat, value: Node, rest: string, depth: nat)
    requires Gives(r, need, value, rest) && r.Ok?
    ensures MultiplicativeLoop(lhs, r.value.1, depth) == MultiplicativeLoop(lhs, rest, depth)
  {
    MultiplicativeLoopSkips(lhs, r.value.1, rest, depth);
  }

  ghost function AfterLeft(c: Cst, rest: string): string
    requires c.Infix?
  {
    c.space + ([OpChar(c.op)] + (Print(c.rhs) + rest))
  }

  /** Parsing a product brings the loop to where the product ends. */
  lemma {:induction false} ProductParses(c: Cst, rest: string, depth: nat)
    requires Wf(c, 1) && Follows(rest)
    ensures ParseMultiplicative(Print(c) + rest, depth) ==
            if depth + Need(c) <= MAX_PARSE_DEPTH then MultiplicativeLoop(Ast(c), rest, depth) else Err(TooDeep)
    decreases c, 1
  {
    if c.Infix? {
      var s := Print(c.rhs) + rest;
      assert Print(c) + rest == Print(c.lhs) + AfterLeft(c, rest);
      OperatorNext(c.space, c.op, s);
      ProductParses(c.lhs, AfterLeft(c, rest), depth);
      UnaryParses(c.rhs, rest, depth);
      MultiplicativeStep(Ast(c.lhs), c.space, c.op, s, depth);
      if depth + Need(c.rhs) <= MAX_PARSE_DEPTH {
        UnaryThenLoop(Ast(c), ParseUnary(s, depth), depth + Need(c.rhs), Ast(c.rhs), rest, depth);
      }
    } else {
      UnaryParses(c, rest, depth);
      if depth + Need(c) <= MAX_PARSE_DEPTH {
        UnaryThenLoop(Ast(c), ParseUnary(Print(c) + rest, depth), depth + Need(c), Ast(c), rest, depth);
      }
    }
  }

  lemma CompleteProductParses(c: Cst, rest: string, depth: nat)
    requires Wf(c, 1) && FollowsSum(rest)
    ensures ParseMultiplicative(Print(c) + rest, depth) ==
            if depth + Need(c) <= MAX_PARSE_DEPTH then Ok((Ast(c), SkipSpace(rest))) else Err(TooDeep)
    decreases c, 2
  {
    ProductParses(c, rest, depth);
  }

  /** Parsing a sum brings the loop to where the sum ends. */
  lemma {:induction false} SumParses(c: Cst, rest: string, depth: nat)
    requires Wf(c, 0) && FollowsSum(rest)
    ensures AdditiveInner(Print(c) + rest, depth) ==
            if depth + Need(c) <= MAX_PARSE_DEPTH then AdditiveLoop(Ast(c), rest, depth) else Err(TooDeep)
    decreases c, 3
  {
    if c.Infix? && IsAdditive(c.op) {
      assert Print(c) + rest == Print(c.lhs) + AfterLeft(c, rest);
      OperatorNext(c.space, c.op, Print(c.rhs) + rest);
      SumParses(c.lhs, AfterLeft(c, rest), depth);
      SumStep(c, rest, depth);
    } else {
      CompleteProductParses(c, rest, depth);
      LoopAfterSkip(Ast(c), rest, depth);
    }
  }

  lemma LoopAfterSkip(lhs: Node, rest: string, depth: nat)
    ensures AdditiveLoop(lhs, SkipSpace(rest), depth) == AdditiveLoop(lhs, rest, depth)
  {
    SkipSpaceTwice(rest);
    AdditiveLoopSkips(lhs, SkipSpace(rest), rest, depth);
  }

  lemma {:induction false} SumStep(c: Cst, rest: string, depth: nat)
    requires c.Infix? && IsAdditive(c.op) && AllSpace(c.space) && Wf(c.rhs, 1) && FollowsSum(rest)
    ensures AdditiveLoop(Ast(c.lhs), AfterLeft(c, rest), depth) ==
            if depth + Need(c.rhs) <= MAX_PARSE_DEPTH then AdditiveLoop(Ast(c), rest, depth) else Err(TooDeep)
    decreases c.rhs, 4
  {
    AdditiveStep(Ast(c.lhs), c.space, c.op, Print(c.rhs) + rest, depth);
    CompleteProductParses(c.rhs, rest, depth);
    LoopAfterSkip(Ast(c), rest, depth);
  }

  lemma {:induction false} AdditiveParses(c: Cst, rest: string, depth: nat)
    requires Wf(c, 0) && FollowsAll(rest)
    ensures Gives(ParseAdditive(Print(c) + rest, depth), depth + 1 + Need(c), Ast(c), rest)
    decreases c, 4
  {
    if depth + 1 <= MAX_PARSE_DEPTH {
      SumParses(c, rest, depth + 1);
      SumEnds(Ast(c), rest, depth + 1);
      if depth + 1 + Need(c) <= MAX_PARSE_DEPTH {
        SkippedGives(depth + 1 + Need(c), Ast(c), rest);
      }
    }
  }

  lemma SumEnds(lhs: Node, rest: string, depth: nat)
    requires FollowsAll(rest)
    ensures AdditiveLoop(lhs, rest, depth) == Ok((lhs, SkipSpace(rest)))
  {
  }

  // ----- Everything that parses is a sentence ---------------------------------------------

  /** `s` starts with the sentence `c`, spelled at `level`, which denotes what the parse result `r`
      holds, and what is left of `s` is what is left over by `r` up to spaces. */
  ghost predicate Reads(s: string, r: Parsed<Node>, c: Cst, level: nat, tail: string, budget: int) {
    && r.Ok? && Wf(c, level) && Ast(c) == r.value.0 && Need(c) <= budget
    && s == Print(c) + tail && SkipSpace(tail) == SkipSpace(r.value.1)
  }

  lemma NumberTruncates(s: string)
    requires s != [] && IsDigit(s[0]) && NumberLength(s).Ok?
    ensures IsNumber(s[..NumberLength(s).value])
  {
    var n := NumberLength(s).value;
    var i := RunEnd(Digits, s, 0);
    assert i == RunEnd(Digits, s, 1) >= 1;
    RunTruncates(Digits, s, 0, n);
    if i < |s| && s[i] == '.' {
      var f := RunEnd(Digits, s, i + 1);
      RunTruncates(Digits, s, i + 1, n);
      ExponentTruncates(s, f);
    } else {
      ExponentTruncates(s, i);
    }
  }

  lemma RunTruncates(k: CharClass, s: string, i: nat, n: nat)
    requires i <= n <= |s| && RunEnd(k, s, i) <= n
    ensures RunEnd(k, s[..n], i) == RunEnd(k, s, i)
  {
    RunEndMeaning(k, s, i);
    RunEndsAt(k, s[..n], i, RunEnd(k, s, i));
  }

  lemma ExponentTruncates(s: string, i: nat)
    requires i <= |s| && ExponentEnd(s, i).Ok?
    ensures var n := ExponentEnd(s, i).value; ExponentEnd(s[..n], i) == Ok(n)
  {
    var n := ExponentEnd(s, i).value;
    if i < |s| && (s[i] == 'e' || s[i] == 'E') {
      var d := if i + 1 < |s| && (s[i + 1] == '+' || s[i + 1] == '-') then i + 2 else i + 1;
      RunTruncates(Digits, s, d, n);
    }
  }

  lemma NumberReads(t: string, w: string) returns (c: Cst, tail: string)
    requires AllSpace(w) && t != [] && IsDigit(t[0]) && ParseNumber(t).Ok?
    ensures Reads(w + t, ParseNumber(t), c, 2, tail, 1)
  {
    var n := NumberLength(t).value;
    c, tail := Number(w, t[..n]), t[n..];
    NumberTruncates(t);
    assert w + t == w + t[..n] + t[n..];
  }

  lemma QuotedReads(t: string, w: string) returns (c: Cst, tail: string)
    requires AllSpace(w) && StartsWith(t, '"') && ParseQuoted(t).Ok?
    ensures Reads(w + t, ParseQuoted(t), c, 2, tail, 1)
  {
    var q := RunEnd(NoQuotes, t, 1);
    RunEndMeaning(NoQuotes, t, 1);
    c, tail := Quoted(w, t[1..q]), t[q + 1..];
    assert t == ['"'] + t[1..q] + ['"'] + t[q + 1..];
    assert w + t == w + (['"'] + t[1..q] + ['"']) + t[q + 1..];
  }

  lemma SpaceThen(s: string, c: char) returns (w: string)
    requires StartsWith(SkipSpace(s), c)
    ensures AllSpace(w) && s == w + ([c] + SkipSpace(s)[1..])
  {
    w := LeadingSpace(s);
    assert SkipSpace(s) == [c] + SkipSpace(s)[1..];
  }

  lemma {:induction false} NamedReads(t: string, w: string, depth: nat) returns (c: Cst, tail: string)
    requires AllSpace(w) && t != [] && IsIdentStart(t[0]) && ParseNamed(t, depth).Ok? && depth <= MAX_PARSE_DEPTH
    ensures Reads(w + t, ParseNamed(t, depth), c, 2, tail, MAX_PARSE_DEPTH - depth + 1)
    decreases |t|, 0, 1
  {
    if StartsWith(SkipSpace(t[RunEnd(IdentParts, t, 0)..]), '(') {
      c, tail := CallReads(t, w, depth);
    } else {
      c, tail := FieldReads(t, w, depth);
    }
  }

  lemma FieldReads(t: string, w: string, depth: nat) returns (c: Cst, tail: string)
    requires AllSpace(w) && t != [] && IsIdentStart(t[0])
    requires !StartsWith(SkipSpace(t[RunEnd(IdentParts, t, 0)..]), '(')
    ensures Reads(w + t, ParseNamed(t, depth), c, 2, tail, 1)
  {
    var n := RunEnd(IdentParts, t, 0);
    NamePrefix(t);
    c, tail := Name(w, t[..n]), t[n..];
    assert t == t[..n] + t[n..];
    NameReads(w, t[..n], t[n..], ParseNamed(t, depth));
  }

  lemma NameReads(w: string, name: string, rest: string, r: Parsed<Node>)
    requires AllSpace(w) && IsIdentifier(name) && r == Ok((Field(name), SkipSpace(rest)))
    ensures Reads(w + (name + rest), r, Name(w, name), 2, rest, 1)
  {
    assert w + (name + rest) == w + name + rest;
    SkipSpaceTwice(rest);
  }

  lemma NamePrefix(t: string)
    requires t != [] && IsIdentStart(t[0])
    ensures IsIdentifier(t[..RunEnd(IdentParts, t, 0)])
  {
    RunEndMeaning(IdentParts, t, 0);
    assert In(IdentParts, t[0]) && RunEnd(IdentParts, t, 0) == RunEnd(IdentParts, t, 1) >= 1;
  }

  lemma FuncNamedName(name: string)
    requires FuncNamed(name).Some?
    ensures FuncName(FuncNamed(name).value) == name
  {
  }

  lemma {:induction false} CallReads(t: string, w: string, depth: nat) returns (c: Cst, tail: string)
    requires AllSpace(w) && t != [] && IsIdentStart(t[0]) && ParseNamed(t, depth).Ok? && depth <= MAX_PARSE_DEPTH
    requires StartsWith(SkipSpace(t[RunEnd(IdentParts, t, 0)..]), '(')
    ensures Reads(w + t, ParseNamed(t, depth), c, 2, tail, MAX_PARSE_DEPTH - depth + 1)
    decreases |t|, 0, 0
  {
    var n := RunEnd(IdentParts, t, 0);
    var inner := SkipSpace(t[n..])[1..];
    var f := CallOf(t, depth);
    var args, rest := ArgsRead(inner, depth);
    var o := SpaceThen(t[n..], '(');
    var close := SpaceThen(rest, ')');
    tail := SkipSpace(rest)[1..];
    c := Apply(w, f, o, args, close);
    assert t == FuncName(f) + t[n..];
    ApplyText(w, f, o, args, close, tail, t);
  }

  lemma CallOf(t: string, depth: nat) returns (f: Func)
    requires t != [] && IsIdentStart(t[0]) && ParseNamed(t, depth).Ok?
    requires StartsWith(SkipSpace(t[RunEnd(IdentParts, t, 0)..]), '(')
    ensures FuncName(f) == t[..RunEnd(IdentParts, t, 0)]
    ensures ParseNamed(t, depth) == CloseCall(f, ParseArgs(SkipSpace(t[RunEnd(IdentParts, t, 0)..])[1..], depth))
  {
    var name := t[..RunEnd(IdentParts, t, 0)];
    f := FuncNamed(name).value;
    FuncNamedName(name);
  }

  lemma ApplyText(w: string, f: Func, o: string, args: Args, close: string, tail: string, t: string)
    requires t == FuncName(f) + (o + (['('] + (PrintArgs(args) + (close + ([')'] + tail)))))
    ensures w + t == Print(Apply(w, f, o, args, close)) + tail
  {
    var inner := PrintArgs(args) + (close + [')']);
    assert PrintArgs(args) + (close + ([')'] + tail)) == inner + tail;
    assert o + (['('] + (inner + tail)) == o + (['('] + inner) + tail;
    assert t == FuncName(f) + (o + (['('] + inner)) + tail;
  }

  lemma {:induction false} ArgsRead(s: string, depth: nat) returns (args: Args, tail: string)
    requires ParseArgs(s, depth).Ok?
    ensures WfArgs(args) && AstArgs(args) == ParseArgs(s, depth).value.0
    ensures depth + 1 + NeedArgs(args) <= MAX_PARSE_DEPTH
    ensures s == PrintArgs(args) + tail && SkipSpace(tail) == SkipSpace(ParseArgs(s, depth).value.1)
    decreases |s|, 5
  {
    var c, tail0 := AdditiveReads(s, depth);
    ArgsUnfold(s, depth);
    if StartsWith(SkipSpace(tail0), ',') {
      var next := SkipSpace(tail0)[1..];
      var w := SpaceThen(tail0, ',');
      var more, rest := ArgsRead(next, depth);
      args, tail := More(c, w, more), rest;
      MoreText(c, w, more, rest);
    } else {
      args, tail := Last(c), tail0;
      SkipSpaceTwice(tail0);
    }
  }

  lemma ArgsUnfold(s: string, depth: nat)
    requires ParseAdditive(s, depth).Ok?
    ensures var t := SkipSpace(ParseAdditive(s, depth).value.1);
            var arg := ParseAdditive(s, depth).value.0;
            ParseArgs(s, depth) ==
              if StartsWith(t, ',') then
                var r := ParseArgs(t[1..], depth);
                if r.Err? then r else Ok(([arg] + r.value.0, r.value.1))
              else Ok(([arg], t))
  {
  }

  lemma MoreText(c: Cst, w: string, more: Args, rest: string)
    ensures Print(c) + (w + ([','] + (PrintArgs(more) + rest))) == PrintArgs(More(c, w, more)) + rest
  {
    assert w + ([','] + (PrintArgs(more) + rest)) == w + ([','] + PrintArgs(more)) + rest;
  }

  lemma {:induction false} UnaryReads(s: string, depth: nat) returns (c: Cst, tail: string)
    requires ParseUnary(s, depth).Ok?
    ensures Reads(s, ParseUnary(s, depth), c, 2, tail, MAX_PARSE_DEPTH - depth)
    decreases |s|, 1
  {
    var t := SkipSpace(s);
    if StartsWith(t, '-') {
      var w := SpaceThen(s, '-');
      c, tail := MinusReads(t[1..], w, depth);
      UnaryMinus(w, t[1..], depth);
    } else {
      var w := LeadingSpace(s);
      SkipSpaceStops(t);
      c, tail := TokenReads(t, w, depth + 1);
    }
  }

  lemma {:induction false} MinusReads(t: string, w: string, depth: nat) returns (c: Cst, tail: string)
    requires AllSpace(w) && ParseUnary(t, depth + 1).Ok?
    ensures Reads(w + (['-'] + t), Negated(ParseUnary(t, depth + 1)), c, 2, tail, MAX_PARSE_DEPTH - depth)
    decreases |t|, 2
  {
    var e, rest := UnaryReads(t, depth + 1);
    c, tail := Minus(w, e), rest;
    assert w + (['-'] + (Print(e) + rest)) == w + (['-'] + Print(e)) + rest;
  }

  lemma {:induction false} TokenReads(t: string, w: string, depth: nat) returns (c: Cst, tail: string)
    requires AllSpace(w) && ParseToken(t, depth).Ok? && depth <= MAX_PARSE_DEPTH
    ensures Reads(w + t, ParseToken(t, depth), c, 2, tail, MAX_PARSE_DEPTH - depth + 1)
    decreases |t|, 0, 2
  {
    if t[0] == '(' {
      c, tail := GroupReads(t, w, depth);
    } else if t[0] == '"' {
      c, tail := QuotedReads(t, w);
    } else if IsDigit(t[0]) {
      c, tail := NumberReads(t, w);
    } else {
      c, tail := NamedReads(t, w, depth);
    }
  }

  lemma {:induction false} GroupReads(t: string, w: string, depth: nat) returns (c: Cst, tail: string)
    requires AllSpace(w) && StartsWith(t, '(') && CloseGroup(ParseAdditive(t[1..], depth)).Ok?
    ensures Reads(w + t, CloseGroup(ParseAdditive(t[1..], depth)), c, 2, tail, MAX_PARSE_DEPTH - depth + 1)
    decreases |t|, 0, 0
  {
    var e, rest := AdditiveReads(t[1..], depth);
    var close := SpaceThen(rest, ')');
    c, tail := Paren(w, e, close), SkipSpace(rest)[1..];
    assert t == ['('] + t[1..];
    ParenText(w, e, close, tail);
  }

  lemma ParenText(w: string, e: Cst, close: string, tail: string)
    ensures w + (['('] + (Print(e) + (close + ([')'] + tail)))) == Print(Paren(w, e, close)) + tail
  {
    assert Print(e) + (close + ([')'] + tail)) == Print(e) + (close + [')']) + tail;
    assert ['('] + (Print(e) + (close + [')']) + tail) == ['('] + (Print(e) + (close + [')'])) + tail;
  }

  lemma {:induction false} ProductReads(s: string, depth: nat) returns (c: Cst, tail: string)
    requires ParseMultiplicative(s, depth).Ok?
    ensures Reads(s, ParseMultiplicative(s, depth), c, 1, tail, MAX_PARSE_DEPTH - depth)
    decreases |s|, 2
  {
    var c0, tail0 := UnaryReads(s, depth);
    WfWeaken(c0, 1, 2);
    MultiplicativeLoopSkips(Ast(c0), ParseUnary(s, depth).value.1, tail0, depth);
    c, tail := ProductLoopReads(c0, tail0, depth);
  }

  lemma WfWeaken(c: Cst, low: nat, high: nat)
    requires Wf(c, high) && low <= high
    ensures Wf(c, low)
  {
  }

  lemma InfixText(c0: Cst, w: string, op: BinOp, rhs: Cst, rest: string)
    ensures Print(c0) + (w + ([OpChar(op)] + (Print(rhs) + rest))) == Print(Infix(c0, w, op, rhs)) + rest
  {
    assert w + ([OpChar(op)] + (Print(rhs) + rest)) == w + ([OpChar(op)] + Print(rhs)) + rest;
  }

  lemma {:induction false} ProductLoopReads(c0: Cst, s: string, depth: nat) returns (c: Cst, tail: string)
    requires Wf(c0, 1) && Need(c0) <= MAX_PARSE_DEPTH - depth && MultiplicativeLoop(Ast(c0), s, depth).Ok?
    ensures Reads(Print(c0) + s, MultiplicativeLoop(Ast(c0), s, depth), c, 1, tail, MAX_PARSE_DEPTH - depth)
    decreases |s|, 3
  {
    var op := MultiplicativeOp(SkipSpace(s));
    if op.None? {
      c, tail := c0, s;
      SkipSpaceTwice(s);
    } else {
      var t := SkipSpace(s)[1..];
      var w := SpaceThen(s, OpChar(op.value));
      MultiplicativeStep(Ast(c0), w, op.value, t, depth);
      var rhs, rest := UnaryReads(t, depth);
      MultiplicativeLoopSkips(Binary(op.value, Ast(c0), Ast(rhs)), ParseUnary(t, depth).value.1, rest, depth);
      InfixText(c0, w, op.value, rhs, rest);
      c, tail := ProductLoopReads(Infix(c0, w, op.value, rhs), rest, depth);
    }
  }

  lemma {:induction false} SumLoopReads(c0: Cst, s: string, depth: nat) returns (c: Cst, tail: string)
    requires Wf(c0, 0) && Need(c0) <= MAX_PARSE_DEPTH - depth && AdditiveLoop(Ast(c0), s, depth).Ok?
    ensures Reads(Print(c0) + s, AdditiveLoop(Ast(c0), s, depth), c, 0, tail, MAX_PARSE_DEPTH - depth)
    decreases |s|, 3
  {
    var op := AdditiveOp(SkipSpace(s));
    if op.None? {
      c, tail := c0, s;
      SkipSpaceTwice(s);
    } else {
      var t := SkipSpace(s)[1..];
      var w := SpaceThen(s, OpChar(op.value));
      AdditiveStep(Ast(c0), w, op.value, t, depth);
      var rhs, rest := ProductReads(t, depth);
      AdditiveLoopSkips(Binary(op.value, Ast(c0), Ast(rhs)), ParseMultiplicative(t, depth).value.1, rest, depth);
      InfixText(c0, w, op.value, rhs, rest);
      c, tail := SumLoopReads(Infix(c0, w, op.value, rhs), rest, depth);
    }
  }

  lemma {:induction false} AdditiveReads(s: string, depth: nat) returns (c: Cst, tail: string)
    requires ParseAdditive(s, depth).Ok?
    ensures Reads(s, ParseAdditive(s, depth), c, 0, tail, MAX_PARSE_DEPTH - depth - 1)
    decreases |s|, 4
  {
    var c0, tail0 := ProductReads(s, depth + 1);
    WfWeaken(c0, 0, 1);
    AdditiveLoopSkips(Ast(c0), ParseMultiplicative(s, depth + 1).value.1, tail0, depth + 1);
    c, tail := SumLoopReads(c0, tail0, depth + 1);
  }

  // ----- Main results ---------------------------------------------------------------------

  /** A sentence, trailing spaces included, within the limits of the parser. */
  ghost predicate IsSentence(input: string, c: Cst, w: string) {
    && input == Print(c) + w && Wf(c, 0) && AllSpace(w)
    && |input| <= MAX_EXPR_LEN && 1 + Need(c) <= MAX_PARSE_DEPTH
  }

  lemma SpaceOnly(w: string)
    requires AllSpace(w)
    ensures SkipSpace(w) == [] && FollowsAll(w)
  {
    SkipSpaceOver(w, []);
    assert w + [] == w;
  }

  /** A well-formed sentence parses to the tree it denotes exactly when it fits the limits: it is
      refused only for its length or its nesting. */
  lemma SentenceParses(c: Cst, w: string)
    requires Wf(c, 0) && AllSpace(w)
    ensures Parse(Print(c) + w) ==
            if |Print(c) + w| > MAX_EXPR_LEN then Err(TooLong)
            else if 1 + Need(c) > MAX_PARSE_DEPTH then Err(TooDeep)
            else Ok(Ast(c))
  {
    SpaceOnly(w);
    AdditiveParses(c, w, 0);
  }

  /** The parser accepts exactly the sentences within its limits, each as the tree it denotes. */
  lemma ParserIsExact(input: string, node: Node)
    ensures Parse(input) == Ok(node) <==> exists c, w :: IsSentence(input, c, w) && Ast(c) == node
  {
    if Parse(input) == Ok(node) {
      var c, tail := AdditiveReads(input, 0);
      var w := LeadingSpace(tail);
      assert tail == w;
      assert IsSentence(input, c, tail);
    }
    forall c, w | IsSentence(input, c, w) ensures Parse(input) == Ok(Ast(c)) {
      SentenceParses(c, w);
    }
  }

  /** Two sentences with one spelling denote one tree. */
  lemma SentencesAreUnambiguous(input: string, c: Cst, w: string, c': Cst, w': string)
    requires IsSentence(input, c, w) && IsSentence(input, c', w')
    ensures Ast(c) == Ast(c')
  {
    SentenceParses(c, w);
    SentenceParses(c', w');
  }

  // ----- Precedence and associativity -------------------------------------------------------

  /** An operator with its right neighbour, in a chain of operands without parentheses around them. */
  datatype Link = Link(space: string, op: BinOp, operand: Cst)

  function Flat(first: Cst, rest: seq<Link>): string { Print(first) + FlatTail(rest) }

  function FlatTail(rest: seq<Link>): string {
    if rest == [] then "" else rest[0].space + ([OpChar(rest[0].op)] + (Print(rest[0].operand) + FlatTail(rest[1..])))
  }

  /** The operator applied last: the last sum operator, or without one the last product operator. */
  function Root(rest: seq<Link>): (i: nat)
    requires rest != []
    ensures i < |rest|
    ensures IsAdditive(rest[i].op) ==> forall j :: i < j < |rest| ==> !IsAdditive(rest[j].op)
    ensures !IsAdditive(rest[i].op) ==> i == |rest| - 1 && forall j :: 0 <= j < |rest| ==> !IsAdditive(rest[j].op)
  {
    var last := |rest| - 1;
    if last == 0 || IsAdditive(rest[last].op) then last
    else
      var earlier := Root(rest[..last]);
      if IsAdditive(rest[earlier].op) then earlier else last
  }

  /** What a chain means: its parts left and right of the operator applied last, combined by it. */
  function Grouped(first: Cst, rest: seq<Link>): Node
    decreases |rest|
  {
    if rest == [] then Ast(first)
    else
      var i := Root(rest);
      Binary(rest[i].op, Grouped(first, rest[..i]), Grouped(rest[i].operand, rest[i + 1..]))
  }

  function ChainCst(first: Cst, rest: seq<Link>): Cst
    decreases |rest|
  {
    if rest == [] then first
    else
      var i := Root(rest);
      Infix(ChainCst(first, rest[..i]), rest[i].space, rest[i].op, ChainCst(rest[i].operand, rest[i + 1..]))
  }

  predicate WfChain(first: Cst, rest: seq<Link>) {
    Wf(first, 2) && forall i :: 0 <= i < |rest| ==> AllSpace(rest[i].space) && Wf(rest[i].operand, 2)
  }

  /** Some operand needs more depth than this. */
  predicate NeedsOver(first: Cst, rest: seq<Link>, depth: nat) {
    Need(first) > depth || exists i :: 0 <= i < |rest| && Need(rest[i].operand) > depth
  }

  lemma {:induction false} FlatTailConcat(xs: seq<Link>, ys: seq<Link>)
    ensures FlatTail(xs + ys) == FlatTail(xs) + FlatTail(ys)
  {
    if xs == [] {
      assert xs + ys == ys;
    } else {
      assert (xs + ys)[1..] == xs[1..] + ys;
      FlatTailConcat(xs[1..], ys);
    }
  }

  lemma FlatSplits(first: Cst, rest: seq<Link>, i: nat)
    requires i < |rest|
    ensures Flat(first, rest) ==
            Flat(first, rest[..i]) + (rest[i].space + ([OpChar(rest[i].op)] + Flat(rest[i].operand, rest[i + 1..])))
  {
    assert rest == rest[..i] + rest[i..];
    assert rest[i..][1..] == rest[i + 1..];
    FlatTailConcat(rest[..i], rest[i..]);
  }

  lemma {:induction false} ChainText(first: Cst, rest: seq<Link>)
    ensures Print(ChainCst(first, rest)) == Flat(first, rest)
    decreases |rest|
  {
    if rest != [] {
      var i := Root(rest);
      ChainText(first, rest[..i]);
      ChainText(rest[i].operand, rest[i + 1..]);
      FlatSplits(first, rest, i);
    }
  }

  function LevelOf(rest: seq<Link>): nat {
    if rest == [] then 2 else if IsAdditive(rest[Root(rest)].op) then 0 else 1
  }

  lemma RootLevels(rest: seq<Link>, i: nat)
    requires rest != [] && i == Root(rest)
    ensures LevelOf(rest) == (if IsAdditive(rest[i].op) then 0 else 1)
    ensures LevelOf(rest[..i]) >= LevelOf(rest) && LevelOf(rest[i + 1..]) >= LevelOf(rest) + 1
  {
  }

  lemma InfixWf(l: Cst, link: Link, r: Cst, left: nat, right: nat)
    requires AllSpace(link.space) && Wf(l, left) && Wf(r, right)
    requires var own := if IsAdditive(link.op) then 0 else 1; left >= own && right >= own + 1
    ensures Wf(Infix(l, link.space, link.op, r), if IsAdditive(link.op) then 0 else 1)
  {
    var own := if IsAdditive(link.op) then 0 else 1;
    WfWeaken(l, own, left);
    WfWeaken(r, own + 1, right);
  }

  lemma {:induction false} ChainWf(first: Cst, rest: seq<Link>)
    requires WfChain(first, rest)
    ensures Wf(ChainCst(first, rest), LevelOf(rest))
    decreases |rest|
  {
    if rest != [] {
      var i := Root(rest);
      var left, right := rest[..i], rest[i + 1..];
      ChainWf(first, left);
      ChainWf(rest[i].operand, right);
      RootLevels(rest, i);
      InfixWf(ChainCst(first, left), rest[i], ChainCst(rest[i].operand, right), LevelOf(left), LevelOf(right));
    }
  }

  lemma {:induction false} ChainMeans(first: Cst, rest: seq<Link>)
    ensures Ast(ChainCst(first, rest)) == Grouped(first, rest)
    decreases |rest|
  {
    if rest != [] {
      var i := Root(rest);
      ChainMeans(first, rest[..i]);
      ChainMeans(rest[i].operand, rest[i + 1..]);
    }
  }

  lemma {:induction false} ChainNeeds(first: Cst, rest: seq<Link>, depth: nat)
    ensures Need(ChainCst(first, rest)) > depth <==> NeedsOver(first, rest, depth)
    decreases |rest|
  {
    if rest != [] {
      var i := Root(rest);
      ChainNeeds(first, rest[..i], depth);
      ChainNeeds(rest[i].operand, rest[i + 1..], depth);
      NeedsOverSplits(first, rest, i, depth);
    }
  }

  lemma NeedsOverSplits(first: Cst, rest: seq<Link>, i: nat, depth: nat)
    requires i < |rest|
    ensures NeedsOver(first, rest, depth) <==>
            NeedsOver(first, rest[..i], depth) || NeedsOver(rest[i].operand, rest[i + 1..], depth)
  {
    forall j | 0 <= j < |rest| && Need(rest[j].operand) > depth
      ensures NeedsOver(first, rest[..i], depth) || NeedsOver(rest[i].operand, rest[i + 1..], depth)
    {
      if j < i {
        assert rest[..i][j] == rest[j];
      } else if j > i {
        assert rest[i + 1..][j - i - 1] == rest[j];
      }
    }
  }

  /** In a chain of any length operators of one precedence associate to the left and `*` and `/` bind
      tighter, and the chain is refused only for its length or the nesting of an operand. */
  lemma PrecedenceAndAssociativity(first: Cst, rest: seq<Link>, w: string)
    requires WfChain(first, rest) && AllSpace(w)
    ensures Parse(Flat(first, rest) + w) ==
            if |Flat(first, rest) + w| > MAX_EXPR_LEN then Err(TooLong)
            else if NeedsOver(first, rest, MAX_PARSE_DEPTH - 1) then Err(TooDeep)
            else Ok(Grouped(first, rest))
  {
    var c := ChainCst(first, rest);
    ChainText(first, rest);
    ChainWf(first, rest);
    WfWeaken(c, 0, LevelOf(rest));
    ChainMeans(first, rest);
    ChainNeeds(first, rest, MAX_PARSE_DEPTH - 1);
    SentenceParses(c, w);
  }

  // ----- Printing -------------------------------------------------------------------------

  /** The trees the parser can return. */
  predicate WfNode(n: Node) {
    match n
    case Literal(text) => IsNumber(text)
    case Field(name) => IsQuotable(name)
    case Neg(e) => WfNode(e)
    case Binary(_, l, r) => WfNode(l) && WfNode(r)
    case Call(f, args) => ArityOk(f, |args|) && forall i :: 0 <= i < |args| ==> WfNode(args[i])
  }

  /** A spelling of `n` fit for `level`, with parentheses only where they are needed. */
  function Sentence(n: Node, level: nat): Cst
    requires WfNode(n)
    decreases n, 1
  {
    match n
    case Literal(text) => Number("", text)
    case Field(name) => Quoted("", name)
    case Neg(e) => Minus("", Sentence(e, 2))
    case Binary(op, l, r) =>
      var own := if IsAdditive(op) then 0 else 1;
      var bare := Infix(Sentence(l, own), "", op, Sentence(r, own + 1));
      if level <= own then bare else Paren("", bare, "")
    case Call(f, args) => Apply("", f, "", SentenceArgs(args), "")
  }

  function SentenceArgs(args: seq<Node>): Args
    requires args != [] && forall i :: 0 <= i < |args| ==> WfNode(args[i])
    decreases args, 0
  {
    if |args| == 1 then Last(Sentence(args[0], 0)) else More(Sentence(args[0], 0), "", SentenceArgs(args[1..]))
  }

  lemma {:induction false} SentenceDenotes(n: Node, level: nat)
    requires WfNode(n) && level <= 2
    ensures Wf(Sentence(n, level), level) && Ast(Sentence(n, level)) == n
    decreases n, 1
  {
    match n
    case Neg(e) => SentenceDenotes(e, 2);
    case Binary(op, l, r) =>
      var own := if IsAdditive(op) then 0 else 1;
      SentenceDenotes(l, own);
      SentenceDenotes(r, own + 1);
    case Call(_, args) => SentenceArgsDenote(args);
    case _ =>
  }

  lemma {:induction false} SentenceArgsDenote(args: seq<Node>)
    requires args != [] && forall i :: 0 <= i < |args| ==> WfNode(args[i])
    ensures WfArgs(SentenceArgs(args)) && AstArgs(SentenceArgs(args)) == args
    decreases args, 0
  {
    SentenceDenotes(args[0], 0);
    if |args| > 1 {
      SentenceArgsDenote(args[1..]);
      assert args == [args[0]] + args[1..];
    }
  }

  /** Printing a tree and parsing the text gives the tree back, unless the text is too long or its
      nesting too deep. */
  lemma PrintThenParse(n: Node)
    requires WfNode(n)
    ensures var c := Sentence(n, 0);
            Parse(Print(c)) ==
              if |Print(c)| > MAX_EXPR_LEN then Err(TooLong)
              else if 1 + Need(c) > MAX_PARSE_DEPTH then Err(TooDeep)
              else Ok(n)
  {
    var c := Sentence(n, 0);
    SentenceDenotes(n, 0);
    SentenceParses(c, "");
    assert Print(c) + "" == Print(c);
  }
}
