/** What the parser makes of texts spelled out character by character: the names and arities of its
    functions, its operators, its character classes, its numbers and its limits. */
module ExpressionTexts {
  import opened Common
  import opened ExpressionParser
  import opened ExpressionGrammar

  // ----- Calls ----------------------------------------------------------------------------

  /** Expressions with a comma between each two. */
  function CommaText(es: seq<Cst>): string
    requires es != []
  {
    if |es| == 1 then Print(es[0]) else Print(es[0]) + ([','] + CommaText(es[1..]))
  }

  predicate Sentences(es: seq<Cst>) { forall i :: 0 <= i < |es| ==> Wf(es[i], 0) }

  predicate SomeNeeds(es: seq<Cst>, depth: nat) { exists i :: 0 <= i < |es| && Need(es[i]) > depth }

  function Meanings(es: seq<Cst>): seq<Node> { seq(|es|, i requires 0 <= i < |es| => Ast(es[i])) }

  function ArgsOf(es: seq<Cst>): Args
    requires es != []
  {
    if |es| == 1 then Last(es[0]) else More(es[0], "", ArgsOf(es[1..]))
  }

  lemma {:induction false} ArgsOfText(es: seq<Cst>)
    requires es != [] && Sentences(es)
    ensures WfArgs(ArgsOf(es)) && PrintArgs(ArgsOf(es)) == CommaText(es)
    decreases |es|
  {
    if |es| > 1 {
      ArgsOfText(es[1..]);
    }
  }

  lemma {:induction false} ArgsOfMeaning(es: seq<Cst>)
    requires es != []
    ensures AstArgs(ArgsOf(es)) == Meanings(es)
    decreases |es|
  {
    if |es| > 1 {
      ArgsOfMeaning(es[1..]);
      assert Meanings(es) == [Ast(es[0])] + Meanings(es[1..]);
    }
  }

  lemma {:induction false} ArgsOfNeed(es: seq<Cst>, depth: nat)
    requires es != []
    ensures NeedArgs(ArgsOf(es)) > depth <==> SomeNeeds(es, depth)
    decreases |es|
  {
    if |es| > 1 {
      ArgsOfNeed(es[1..], depth);
      NeedsOfRest(es, depth);
    }
  }

  lemma NeedsOfRest(es: seq<Cst>, depth: nat)
    requires es != []
    ensures SomeNeeds(es, depth) <==> Need(es[0]) > depth || SomeNeeds(es[1..], depth)
  {
    if i :| 0 <= i < |es| && Need(es[i]) > depth {
      assert i > 0 ==> es[1..][i - 1] == es[i];
    }
    if i :| 0 <= i < |es[1..]| && Need(es[1..][i]) > depth {
      assert es[1..][i] == es[i + 1];
    }
  }

  /** How a call ends whose arguments are well-formed sentences. */
  function CallOutcome(f: Func, es: seq<Cst>, length: nat, arities: set<nat>): Result<Node, ParseError> {
    if length > 8192 then Err(TooLong)
    else if SomeNeeds(es, 125) then Err(TooDeep)
    else if |es| !in arities then Err(BadArity)
    else Ok(Call(f, Meanings(es)))
  }

  lemma CallUnary(f: Func, es: seq<Cst>)
    requires es != [] && Sentences(es)
    ensures ParseUnary(FuncName(f) + (['('] + (CommaText(es) + [')'])), 1) ==
            CloseCall(f, ParseArgs(CommaText(es) + [')'], 2))
  {
    var inner := CommaText(es) + [')'];
    ApplyUnary([], f, [], inner, 1);
    assert [] + (FuncName(f) + ([] + (['('] + inner))) == FuncName(f) + (['('] + inner);
  }

  lemma CallArgs(es: seq<Cst>)
    requires es != [] && Sentences(es)
    ensures Gives(ParseArgs(CommaText(es) + [')'], 2), 3 + NeedArgs(ArgsOf(es)), Meanings(es), [')'])
    ensures NeedArgs(ArgsOf(es)) > 125 <==> SomeNeeds(es, 125)
  {
    ArgsOfText(es);
    ArgsOfMeaning(es);
    ArgsOfNeed(es, 125);
    SkipSpaceStops([')']);
    ArgsParse(ArgsOf(es), [')'], 2);
  }

  lemma CallCloses(f: Func, r: Parsed<seq<Node>>, need: nat, args: seq<Node>)
    requires Gives(r, need, args, [')'])
    ensures CloseCall(f, r) ==
            if need > MAX_PARSE_DEPTH then Err(TooDeep)
            else if !ArityOk(f, |args|) then Err(BadArity)
            else Ok((Call(f, args), ""))
  {
    SkipSpaceStops([')']);
    assert [')'][1..] == "";
  }

  lemma CallParses(f: Func, es: seq<Cst>)
    requires es != [] && Sentences(es)
    ensures ParseUnary(FuncName(f) + (['('] + (CommaText(es) + [')'])), 1) ==
            if SomeNeeds(es, 125) then Err(TooDeep)
            else if !ArityOk(f, |es|) then Err(BadArity)
            else Ok((Call(f, Meanings(es)), ""))
  {
    CallUnary(f, es);
    CallArgs(es);
    CallCloses(f, ParseArgs(CommaText(es) + [')'], 2), 3 + NeedArgs(ArgsOf(es)), Meanings(es));
  }

  lemma {:induction false} LoopsEnd(node: Node, depth: nat)
    ensures MultiplicativeLoop(node, "", depth) == Ok((node, "")) && AdditiveLoop(node, "", depth) == Ok((node, ""))
  {
    SkipSpaceStops("");
  }

  lemma {:induction false} UnaryToProduct(text: string, node: Node)
    requires ParseUnary(text, 1).Err? || ParseUnary(text, 1) == Ok((node, ""))
    ensures ParseMultiplicative(text, 1) == ParseUnary(text, 1)
  {
    LoopsEnd(node, 1);
  }

  lemma {:induction false} ProductToSum(text: string, node: Node)
    requires ParseMultiplicative(text, 1).Err? || ParseMultiplicative(text, 1) == Ok((node, ""))
    ensures ParseAdditive(text, 0) == ParseMultiplicative(text, 1)
  {
    LoopsEnd(node, 1);
  }

  lemma {:induction false} UnaryIsAll(text: string, node: Node)
    requires ParseUnary(text, 1).Err? || ParseUnary(text, 1) == Ok((node, ""))
    ensures Parse(text) ==
            if |text| > 8192 then Err(TooLong)
            else if ParseUnary(text, 1).Err? then Err(ParseUnary(text, 1).error)
            else Ok(node)
  {
    UnaryToProduct(text, node);
    ProductToSum(text, node);
    SkipSpaceStops("");
  }

  lemma CallText(f: Func, es: seq<Cst>, text: string, arities: set<nat>)
    requires es != [] && Sentences(es) && text == FuncName(f) + (['('] + (CommaText(es) + [')']))
    requires forall n: nat :: n in arities <==> ArityOk(f, n)
    ensures Parse(text) == CallOutcome(f, es, |text|, arities)
  {
    CallParses(f, es);
    UnaryIsAll(text, Call(f, Meanings(es)));
  }

  /** `round` takes one argument or two. */
  lemma RoundCalls(es: seq<Cst>)
    requires es != [] && Sentences(es)
    ensures var text := ['r', 'o', 'u', 'n', 'd', '('] + (CommaText(es) + [')']);
      Parse(text) == CallOutcome(Round, es, |text|, {1, 2})
  {
    var text := ['r', 'o', 'u', 'n', 'd', '('] + (CommaText(es) + [')']);
    assert ['r', 'o', 'u', 'n', 'd', '('] == FuncName(Round) + ['('];
    assert text == FuncName(Round) + (['('] + (CommaText(es) + [')']));
    CallText(Round, es, text, {1, 2});
  }

  lemma AbsCalls(es: seq<Cst>)
    requires es != [] && Sentences(es)
    ensures var text := ['a', 'b', 's', '('] + (CommaText(es) + [')']);
      Parse(text) == CallOutcome(Abs, es, |text|, {1})
  {
    var text := ['a', 'b', 's', '('] + (CommaText(es) + [')']);
    assert ['a', 'b', 's', '('] == FuncName(Abs) + ['('];
    assert text == FuncName(Abs) + (['('] + (CommaText(es) + [')']));
    CallText(Abs, es, text, {1});
  }

  lemma FloorCalls(es: seq<Cst>)
    requires es != [] && Sentences(es)
    ensures var text := ['f', 'l', 'o', 'o', 'r', '('] + (CommaText(es) + [')']);
      Parse(text) == CallOutcome(Floor, es, |text|, {1})
  {
    var text := ['f', 'l', 'o', 'o', 'r', '('] + (CommaText(es) + [')']);
    assert ['f', 'l', 'o', 'o', 'r', '('] == FuncName(Floor) + ['('];
    assert text == FuncName(Floor) + (['('] + (CommaText(es) + [')']));
    CallText(Floor, es, text, {1});
  }

  lemma CeilCalls(es: seq<Cst>)
    requires es != [] && Sentences(es)
    ensures var text := ['c', 'e', 'i', 'l', '('] + (CommaText(es) + [')']);
      Parse(text) == CallOutcome(Ceil, es, |text|, {1})
  {
    var text := ['c', 'e', 'i', 'l', '('] + (CommaText(es) + [')']);
    assert ['c', 'e', 'i', 'l', '('] == FuncName(Ceil) + ['('];
    assert text == FuncName(Ceil) + (['('] + (CommaText(es) + [')']));
    CallText(Ceil, es, text, {1});
  }

  // ----- Operators ------------------------------------------------------------------------

  function OperationOutcome(op: BinOp, e: Cst, d: Cst, length: nat): Result<Node, ParseError> {
    if length > 8192 then Err(TooLong)
    else if Need(e) > 127 || Need(d) > 127 then Err(TooDeep)
    else Ok(Binary(op, Ast(e), Ast(d)))
  }

  lemma OperatorText(op: BinOp, e: Cst, d: Cst)
    requires Wf(e, 2) && Wf(d, 2)
    ensures var text := Print(e) + ([OpChar(op)] + Print(d)); Parse(text) == OperationOutcome(op, e, d, |text|)
  {
    var link := Link("", op, d);
    assert FlatTail([link]) == [OpChar(op)] + Print(d) by {
      assert [link][1..] == [] && FlatTail([]) == "";
    }
    var text := Flat(e, [link]);
    assert text + "" == text;
    PrecedenceAndAssociativity(e, [link], "");
    assert Root([link]) == 0 && [link][..0] == [] && [link][1..] == [];
    assert NeedsOver(e, [link], 127) <==> Need(e) > 127 || Need([link][0].operand) > 127;
  }

  /** The four characters and what they stand for, between two operands. */
  lemma OperatorsByCharacter(e: Cst, d: Cst)
    requires Wf(e, 2) && Wf(d, 2)
    ensures var length := |Print(e)| + 1 + |Print(d)|;
      && Parse(Print(e) + (['+'] + Print(d))) == OperationOutcome(Add, e, d, length)
      && Parse(Print(e) + (['-'] + Print(d))) == OperationOutcome(Sub, e, d, length)
      && Parse(Print(e) + (['*'] + Print(d))) == OperationOutcome(Mul, e, d, length)
      && Parse(Print(e) + (['/'] + Print(d))) == OperationOutcome(Div, e, d, length)
  {
    OperatorText(Add, e, d);
    OperatorText(Sub, e, d);
    OperatorText(Mul, e, d);
    OperatorText(Div, e, d);
  }

  // ----- Names ----------------------------------------------------------------------------

  predicate LetterCode(c: char) { 65 <= c as int <= 90 || 97 <= c as int <= 122 || c as int == 95 || c as int == 36 }

  predicate DigitCode(c: char) { 48 <= c as int <= 57 }

  /** Letters, underscores, dollar signs and, but for the first, digits. */
  predicate NameText(name: string) {
    name != [] && LetterCode(name[0]) && forall i :: 0 <= i < |name| ==> LetterCode(name[i]) || DigitCode(name[i])
  }

  lemma NameTextIsIdentifier(name: string)
    ensures NameText(name) <==> IsIdentifier(name)
  {
  }

  /** The only sentence that spells a field by its bare name is that name. */
  lemma {:induction false} FieldPrintsLonger(c: Cst, name: string)
    requires Ast(c) == Field(name)
    ensures |Print(c)| >= |name|
    ensures |Print(c)| == |name| ==> c == Name("", name)
  {
    if c.Paren? {
      FieldPrintsLonger(c.inner, name);
    }
  }

  /** A text is read as the field it spells exactly when it is a name. */
  lemma NamesAreFields(name: string)
    ensures Parse(name) == Ok(Field(name)) <==> NameText(name) && |name| <= 8192
  {
    NameTextIsIdentifier(name);
    if IsIdentifier(name) {
      SentenceParses(Name("", name), "");
      assert Print(Name("", name)) + "" == name;
    }
    ParserIsExact(name, Field(name));
    if c, w :| IsSentence(name, c, w) && Ast(c) == Field(name) {
      assert name == Print(c) + w;
      FieldPrintsLonger(c, name);
    }
  }

  /** Any other name is no function. */
  lemma OtherNamesAreNoFunctions(name: string, rest: string)
    requires NameText(name)
    requires name != ['r', 'o', 'u', 'n', 'd'] && name != ['a', 'b', 's']
    requires name != ['f', 'l', 'o', 'o', 'r'] && name != ['c', 'e', 'i', 'l']
    ensures var text := name + (['('] + rest);
      Parse(text) == if |text| > 8192 then Err(TooLong) else Err(UnsupportedFunction)
  {
    var text := name + (['('] + rest);
    NameTextIsIdentifier(name);
    OpenNext([], rest);
    assert [] + (['('] + rest) == ['('] + rest;
    IdentifierRun(name, ['('] + rest);
    NamesOfFunctions(name);
    PrimaryIsNamed(text, 2);
    UnaryIsPrimary([], text, 1);
    assert [] + text == text;
    UnaryIsAll(text, Field(name));
  }

  lemma NamesOfFunctions(name: string)
    ensures FuncNamed(name).Some? ==>
      name == ['r', 'o', 'u', 'n', 'd'] || name == ['a', 'b', 's'] || name == ['f', 'l', 'o', 'o', 'r']
      || name == ['c', 'e', 'i', 'l']
  {
  }

  // ----- Quotes ---------------------------------------------------------------------------

  predicate NoQuote(name: string) { forall i :: 0 <= i < |name| ==> name[i] as int != 34 }

  /** Between two quotes any name stands as it is, but not the empty one. */
  lemma QuotedNames(name: string, text: string)
    requires NoQuote(name) && text == ['"'] + (name + ['"'])
    ensures Parse(text) ==
            if |text| > 8192 then Err(TooLong) else if name == "" then Err(EmptyQuote) else Ok(Field(name))
  {
    if name == "" {
      EmptyQuotes(text);
    } else {
      QuotedSentence(name, text);
    }
  }

  lemma {:induction false} EmptyQuotes(text: string)
    requires text == ['"', '"']
    ensures Parse(text) == Err(EmptyQuote)
  {
    RunEndsAt(NoQuotes, text, 1, 1);
    QuoteFirst(text);
  }

  lemma {:induction false} QuotedSentence(name: string, text: string)
    requires NoQuote(name) && name != "" && text == ['"'] + (name + ['"'])
    ensures Parse(text) == if |text| > 8192 then Err(TooLong) else Ok(Field(name))
  {
    var c := Quoted("", name);
    assert '"' !in name;
    assert Print(c) == "" + (['"'] + name + ['"']);
    assert Print(c) + "" == text;
    SentenceParses(c, "");
  }

  /** A quote needs its partner. */
  lemma OpenQuotes(name: string)
    requires NoQuote(name)
    ensures var text := ['"'] + name; Parse(text) == if |text| > 8192 then Err(TooLong) else Err(UnterminatedQuote)
  {
    var text := ['"'] + name;
    RunEndsAt(NoQuotes, text, 1, |text|);
    QuoteFirst(text);
  }

  lemma QuoteFirst(text: string)
    requires text != [] && text[0] == '"' && ParseQuoted(text).Err?
    ensures Parse(text) == if |text| > 8192 then Err(TooLong) else Err(ParseQuoted(text).error)
  {
    assert [] + text == text;
    UnaryIsPrimary([], text, 1);
    PrimaryIsToken(text, 2);
    UnaryIsAll(text, Field(""));
  }

  // ----- One character ----------------------------------------------------------------------

  /** What a single character is, for every character. */
  lemma OneCharacter(c: char)
    ensures Parse([c]) ==
            if LetterCode(c) then Ok(Field([c]))
            else if DigitCode(c) then Ok(Literal([c]))
            else if c as int == 32 || 9 <= c as int <= 10 || 12 <= c as int <= 13 then Err(UnexpectedEnd)
            else if c as int == 45 || c as int == 40 then Err(UnexpectedEnd)
            else if c as int == 34 then Err(UnterminatedQuote)
            else Err(UnexpectedCharacter)
  {
    if LetterCode(c) {
      NamesAreFields([c]);
    } else if DigitCode(c) {
      NumbersAreLiterals([c]);
      assert NumberShape([c], 1, 1);
    } else {
      NoPrimary(c);
      UnaryIsAll([c], Field([c]));
    }
  }

  lemma NothingIsUnexpectedEnd(depth: nat)
    requires depth < 125
    ensures ParseUnary("", depth) == Err(UnexpectedEnd) && ParseAdditive("", depth) == Err(UnexpectedEnd)
  {
    SkipSpaceStops("");
  }

  lemma {:induction false} NoPrimary(c: char)
    requires !LetterCode(c) && !DigitCode(c)
    ensures ParseUnary([c], 1) ==
            if c as int == 32 || 9 <= c as int <= 10 || 12 <= c as int <= 13 then Err(UnexpectedEnd)
            else if c as int == 45 || c as int == 40 then Err(UnexpectedEnd)
            else if c as int == 34 then Err(UnterminatedQuote)
            else Err(UnexpectedCharacter)
  {
    assert [c][1..] == "";
    NothingIsUnexpectedEnd(2);
    if IsSpace(c) {
      SkipSpaceStops("");
      assert SkipSpace([c]) == SkipSpace("");
    } else if c == '-' {
      SkipSpaceStops([c]);
    } else {
      assert [] + [c] == [c];
      UnaryIsPrimary([], [c], 1);
      PrimaryIsToken([c], 2);
      assert c == '"' ==> RunEnd(NoQuotes, [c], 1) == 1;
      assert c == '(' ==> ParseToken([c], 2) == CloseGroup(ParseAdditive("", 2));
    }
  }

  // ----- Numbers --------------------------------------------------------------------------

  predicate DigitsOn(t: string, i: nat, j: nat)
    requires i <= j <= |t|
  {
    forall k :: i <= k < j ==> DigitCode(t[k])
  }

  predicate ExponentShape(t: string, j: nat)
    requires j < |t|
  {
    && (t[j] as int == 69 || t[j] as int == 101)
    && var k := if j + 1 < |t| && (t[j + 1] as int == 43 || t[j + 1] as int == 45) then j + 2 else j + 1;
       k < |t| && DigitsOn(t, k, |t|)
  }

  /** Digits up to i, then nothing or a point and digits up to j, then nothing or an exponent. */
  predicate NumberShape(t: string, i: nat, j: nat) {
    && 0 < i <= j <= |t| && DigitsOn(t, 0, i)
    && (i == j || (t[i] as int == 46 && i + 1 < j && DigitsOn(t, i + 1, j)))
    && (j == |t| || ExponentShape(t, j))
  }

  lemma NumberHasShape(t: string) returns (i: nat, j: nat)
    requires IsNumber(t)
    ensures NumberShape(t, i, j)
  {
    i := RunEnd(Digits, t, 0);
    RunEndMeaning(Digits, t, 0);
    j := FractionEnd(t, i).value;
    FractionHasShape(t, i);
    if j < |t| {
      ExponentHasShape(t, j);
    }
  }

  lemma FractionHasShape(t: string, i: nat)
    requires i <= |t| && FractionEnd(t, i).Ok?
    ensures var j := FractionEnd(t, i).value;
      i == j || (i < |t| && t[i] as int == 46 && i + 1 < j && DigitsOn(t, i + 1, j))
  {
    if i < |t| && t[i] == '.' {
      RunEndMeaning(Digits, t, i + 1);
    }
  }

  lemma ExponentHasShape(t: string, j: nat)
    requires j < |t| && ExponentEnd(t, j) == Ok(|t|)
    ensures ExponentShape(t, j)
  {
    var k := if j + 1 < |t| && (t[j + 1] == '+' || t[j + 1] == '-') then j + 2 else j + 1;
    RunEndMeaning(Digits, t, k);
  }

  lemma ShapeIsNumber(t: string, i: nat, j: nat)
    requires NumberShape(t, i, j)
    ensures IsNumber(t)
  {
    RunEndsAt(Digits, t, 0, i);
    if i < j {
      RunEndsAt(Digits, t, i + 1, j);
    }
    assert FractionEnd(t, i) == Ok(j);
    if j < |t| {
      var k := if j + 1 < |t| && (t[j + 1] == '+' || t[j + 1] == '-') then j + 2 else j + 1;
      RunEndsAt(Digits, t, k, |t|);
    }
  }

  lemma {:induction false} LiteralPrintsLonger(c: Cst, text: string)
    requires Ast(c) == Literal(text)
    ensures |Print(c)| >= |text|
    ensures |Print(c)| == |text| ==> c == Number("", text)
  {
    if c.Paren? {
      LiteralPrintsLonger(c.inner, text);
    }
  }

  /** A text is read as the literal it spells exactly when it has the shape of a number. */
  lemma NumbersAreLiterals(t: string)
    ensures Parse(t) == Ok(Literal(t)) <==> |t| <= 8192 && exists i, j :: NumberShape(t, i, j)
  {
    if i, j :| NumberShape(t, i, j) {
      ShapeIsNumber(t, i, j);
      SentenceParses(Number("", t), "");
      assert Print(Number("", t)) + "" == t;
    }
    ParserIsExact(t, Literal(t));
    if c, w :| IsSentence(t, c, w) && Ast(c) == Literal(t) {
      assert t == Print(c) + w;
      LiteralPrintsLonger(c, t);
      var i, j := NumberHasShape(t);
    }
  }

  // ----- Nesting --------------------------------------------------------------------------

  function Nested(n: nat, e: Cst): Cst {
    if n == 0 then e else Paren("", Nested(n - 1, e), "")
  }

  function Negated(n: nat, e: Cst): Cst {
    if n == 0 then e else Minus("", Negated(n - 1, e))
  }

  lemma {:induction false} NestedIs(n: nat, e: Cst)
    requires Wf(e, 0)
    ensures Wf(Nested(n, e), 0) && Ast(Nested(n, e)) == Ast(e) && Need(Nested(n, e)) == 2 * n + Need(e)
    ensures |Print(Nested(n, e))| == 2 * n + |Print(e)|
  {
    if n > 0 {
      NestedIs(n - 1, e);
    }
  }

  lemma {:induction false} NegatedIs(n: nat, e: Cst)
    requires Wf(e, 2)
    ensures Wf(Negated(n, e), 2) && Need(Negated(n, e)) == n + Need(e)
    ensures |Print(Negated(n, e))| == n + |Print(e)|
  {
    if n > 0 {
      NegatedIs(n - 1, e);
    }
  }

  /** A digit may stand in 63 pairs of parentheses, or behind 126 signs, and in no more. */
  lemma NestingLimit(digit: char, n: nat)
    requires DigitCode(digit) && n <= 4000
    ensures Parse(Print(Nested(n, Number("", [digit])))) == if n <= 63 then Ok(Literal([digit])) else Err(TooDeep)
    ensures Parse(Print(Negated(n, Number("", [digit])))).Ok? <==> n <= 126
  {
    var e := Number("", [digit]);
    assert NumberShape([digit], 1, 1);
    ShapeIsNumber([digit], 1, 1);
    NestedIs(n, e);
    NegatedIs(n, e);
    WfWeaken(Negated(n, e), 0, 2);
    SentenceParses(Nested(n, e), "");
    SentenceParses(Negated(n, e), "");
    assert Print(Nested(n, e)) + "" == Print(Nested(n, e)) && Print(Negated(n, e)) + "" == Print(Negated(n, e));
  }
}
