/** The parser as the source runs it: a cursor and a depth counter advanced by mutually recursive
    methods and loops.  Each method is proved to do what the function of the same name in
    `ExpressionParser` says about the input left at its start. */
module RecursiveDescent {
  import opened Common
  import opened ExpressionParser

  type Outcome = Result<Node, ParseError>

  class Parser {
    const s: string
    var pos: nat
    var depth: nat

    ghost predicate Valid()
      reads this
    {
      pos <= |s|
    }

    ghost function Rest(): string
      requires Valid()
      reads this
    {
      s[pos..]
    }

    /** `r` and the state of the parser are what `spec` predicts, `d` being the depth to return to. */
    ghost predicate Agrees(r: Outcome, spec: Parsed<Node>, d: nat)
      reads this
    {
      if spec.Err? then r == Err(spec.error)
      else r == Ok(spec.value.0) && Valid() && Rest() == spec.value.1 && depth == d
    }

    constructor (input: string)
      ensures Valid() && s == input && pos == 0 && depth == 0
    {
      s := input;
      pos, depth := 0, 0;
    }

    method Enter() returns (ok: bool)
      modifies `depth
      ensures depth == old(depth) + 1 && (ok <==> depth <= MAX_PARSE_DEPTH)
    {
      depth := depth + 1;
      ok := depth <= MAX_PARSE_DEPTH;
    }

    method Leave()
      requires depth > 0
      modifies `depth
      ensures depth == old(depth) - 1
    {
      depth := depth - 1;
    }

    method SkipWs()
      requires Valid()
      modifies `pos
      ensures Valid() && Rest() == SkipSpace(old(Rest())) && pos >= old(pos)
    {
      while pos < |s| && IsSpace(s[pos])
        invariant Valid() && SkipSpace(Rest()) == SkipSpace(old(Rest())) && pos >= old(pos)
      {
        pos := pos + 1;
      }
    }

    /** Consume `c` if it is the next character that is not a space. */
    method Eat(c: char) returns (eaten: bool)
      requires Valid()
      modifies `pos
      ensures Valid() && pos >= old(pos)
      ensures var t := SkipSpace(old(Rest()));
              (eaten <==> StartsWith(t, c)) && Rest() == if eaten then t[1..] else t
    {
      SkipWs();
      eaten := pos < |s| && s[pos] == c;
      if eaten {
        pos := pos + 1;
      }
    }

    method ConsumeRun(k: CharClass)
      requires Valid()
      modifies `pos
      ensures Valid() && pos == RunEnd(k, s, old(pos))
    {
      while pos < |s| && In(k, s[pos])
        invariant Valid() && RunEnd(k, s, pos) == RunEnd(k, s, old(pos))
      {
        pos := pos + 1;
      }
    }

    method ParseAdditiveExpr() returns (r: Outcome)
      requires Valid()
      modifies this
      ensures Agrees(r, ParseAdditive(old(Rest()), old(depth)), old(depth)) && depth >= old(depth)
      decreases |s| - pos, 5
    {
      var ok := Enter();
      if !ok {
        return Err(TooDeep);
      }
      r := ParseAdditiveInner();
      Leave();
    }

    method ParseAdditiveInner() returns (r: Outcome)
      requires Valid()
      modifies this
      ensures Agrees(r, AdditiveInner(old(Rest()), old(depth)), old(depth)) && depth >= old(depth)
      decreases |s| - pos, 4
    {
      var first := ParseMultiplicativeExpr();
      if first.Err? {
        return first;
      }
      var lhs := first.value;
      while true
        invariant Valid() && depth == old(depth) && pos > old(pos)
        invariant AdditiveInner(old(Rest()), old(depth)) == AdditiveLoop(lhs, Rest(), depth)
        decreases |s| - pos
      {
        SkipWs();
        var op := if pos < |s| && s[pos] == '+' then Some(Add)
                  else if pos < |s| && s[pos] == '-' then Some(Sub)
                  else None;
        assert op == AdditiveOp(Rest());
        if op.None? {
          return Ok(lhs);
        }
        assert Rest()[1..] == s[pos + 1..];
        pos := pos + 1;
        var rhs := ParseMultiplicativeExpr();
        if rhs.Err? {
          return rhs;
        }
        lhs := Binary(op.value, lhs, rhs.value);
      }
    }

    method ParseMultiplicativeExpr() returns (r: Outcome)
      requires Valid()
      modifies this
      ensures Agrees(r, ParseMultiplicative(old(Rest()), old(depth)), old(depth)) && depth >= old(depth)
      ensures r.Ok? ==> pos > old(pos)
      decreases |s| - pos, 3
    {
      var first := ParseUnaryExpr();
      if first.Err? {
        return first;
      }
      var lhs := first.value;
      while true
        invariant Valid() && depth == old(depth) && pos > old(pos)
        invariant ParseMultiplicative(old(Rest()), old(depth)) == MultiplicativeLoop(lhs, Rest(), depth)
        decreases |s| - pos
      {
        SkipWs();
        var op := if pos < |s| && s[pos] == '*' then Some(Mul)
                  else if pos < |s| && s[pos] == '/' then Some(Div)
                  else None;
        assert op == MultiplicativeOp(Rest());
        if op.None? {
          return Ok(lhs);
        }
        assert Rest()[1..] == s[pos + 1..];
        pos := pos + 1;
        var rhs := ParseUnaryExpr();
        if rhs.Err? {
          return rhs;
        }
        lhs := Binary(op.value, lhs, rhs.value);
      }
    }

    method ParseUnaryExpr() returns (r: Outcome)
      requires Valid()
      modifies this
      ensures Agrees(r, ParseUnary(old(Rest()), old(depth)), old(depth)) && depth >= old(depth)
      ensures r.Ok? ==> pos > old(pos)
      decreases |s| - pos, 2
    {
      var ok := Enter();
      if !ok {
        return Err(TooDeep);
      }
      var minus := Eat('-');
      if minus {
        r := ParseUnaryExpr();
        if r.Ok? {
          r := Ok(Neg(r.value));
        }
      } else {
        r := ParsePrimaryExpr();
      }
      Leave();
    }

    method ParsePrimaryExpr() returns (r: Outcome)
      requires Valid()
      modifies this
      ensures Agrees(r, ParsePrimary(old(Rest()), old(depth)), old(depth)) && depth >= old(depth)
      decreases |s| - pos, 1
    {
      SkipWs();
      if pos == |s| {
        r := Err(UnexpectedEnd);
      } else if s[pos] == '(' {
        r := ParseGroup();
      } else if s[pos] == '"' {
        r := ParseQuotedIdentifier();
      } else if IsDigit(s[pos]) {
        r := ParseNumberLiteral();
      } else if IsIdentStart(s[pos]) {
        r := ParseBareIdentifierOrCall();
      } else {
        r := Err(UnexpectedCharacter);
      }
    }

    method ParseGroup() returns (r: Outcome)
      requires Valid() && pos < |s| && s[pos] == '('
      modifies this
      ensures Agrees(r, CloseGroup(ParseAdditive(old(Rest())[1..], old(depth))), old(depth)) && depth >= old(depth)
      decreases |s| - pos, 0
    {
      assert Rest()[1..] == s[pos + 1..];
      pos := pos + 1;
      r := ParseAdditiveExpr();
      if r.Ok? {
        var closed := Eat(')');
        if !closed {
          r := Err(ExpectedClose);
        }
      }
    }

    method ParseQuotedIdentifier() returns (r: Outcome)
      requires Valid() && pos < |s| && s[pos] == '"'
      modifies `pos
      ensures Agrees(r, ParseQuoted(old(Rest())), old(depth))
    {
      RunEndShift(NoQuotes, s, pos, 1);
      var start := pos + 1;
      pos := start;
      ConsumeRun(NoQuotes);
      if pos == |s| {
        return Err(UnterminatedQuote);
      }
      var name := s[start..pos];
      if name == [] {
        return Err(EmptyQuote);
      }
      assert old(Rest())[1..pos - old(pos)] == name;
      pos := pos + 1;
      return Ok(Field(name));
    }

    method ParseNumberLiteral() returns (r: Outcome)
      requires Valid() && pos < |s| && IsDigit(s[pos])
      modifies `pos
      ensures Agrees(r, ParseNumber(old(Rest())), old(depth))
    {
      var start := pos;
      var error := ConsumeNumber();
      if error.Some? {
        return Err(error.value);
      }
      assert old(Rest())[..pos - start] == s[start..pos];
      return Ok(Literal(s[start..pos]));
    }

    method ConsumeNumber() returns (error: Option<ParseError>)
      requires Valid()
      modifies `pos
      ensures Valid() && pos >= old(pos)
      ensures NumberLength(old(Rest())) == if error.Some? then Err(error.value) else Ok(pos - old(pos))
    {
      ghost var start := pos;
      RunEndShift(Digits, s, start, 0);
      ConsumeRun(Digits);
      var ok := ConsumeFraction(start);
      if !ok {
        return Some(NoFraction);
      }
      ok := ConsumeExponent(start);
      return if ok then None else Some(NoExponent);
    }

    /** The fraction of a literal that started at `start`. */
    method ConsumeFraction(ghost start: nat) returns (ok: bool)
      requires Valid() && start <= pos
      modifies `pos
      ensures Valid() && pos >= start
      ensures FractionEnd(s[start..], old(pos) - start) == if ok then Ok(pos - start) else Err(NoFraction)
    {
      if pos < |s| && s[pos] == '.' {
        pos := pos + 1;
        var fracStart := pos;
        RunEndShift(Digits, s, start, pos - start);
        ConsumeRun(Digits);
        return pos != fracStart;
      }
      return true;
    }

    /** The exponent of a literal that started at `start`. */
    method ConsumeExponent(ghost start: nat) returns (ok: bool)
      requires Valid() && start <= pos
      modifies `pos
      ensures Valid() && pos >= start
      ensures ExponentEnd(s[start..], old(pos) - start) == if ok then Ok(pos - start) else Err(NoExponent)
    {
      if pos < |s| && (s[pos] == 'e' || s[pos] == 'E') {
        pos := pos + 1;
        if pos < |s| && (s[pos] == '+' || s[pos] == '-') {
          pos := pos + 1;
        }
        var expStart := pos;
        RunEndShift(Digits, s, start, pos - start);
        ConsumeRun(Digits);
        return pos != expStart;
      }
      return true;
    }

    /** The name at the cursor, as long as it goes. */
    method ConsumeName() returns (name: string)
      requires Valid() && pos < |s| && IsIdentStart(s[pos])
      modifies `pos
      ensures Valid() && pos > old(pos)
      ensures var n := RunEnd(IdentParts, old(Rest()), 0);
        name == old(Rest())[..n] && Rest() == old(Rest())[n..]
    {
      var start := pos;
      RunEndShift(IdentParts, s, pos, 0);
      ConsumeRun(IdentParts);
      name := s[start..pos];
      assert In(IdentParts, s[start]) && pos == RunEnd(IdentParts, s, start + 1);
      assert old(Rest())[..pos - start] == name && old(Rest())[pos - start..] == Rest();
    }

    method ParseBareIdentifierOrCall() returns (r: Outcome)
      requires Valid() && pos < |s| && IsIdentStart(s[pos])
      modifies this
      ensures Agrees(r, ParseNamed(old(Rest()), old(depth)), old(depth)) && depth >= old(depth)
      decreases |s| - pos, 0
    {
      var name := ConsumeName();
      SkipWs();
      if pos == |s| || s[pos] != '(' {
        return Ok(Field(name));
      }
      var f := FuncNamed(name);
      if f.None? {
        return Err(UnsupportedFunction);
      }
      r := ParseCall(f.value);
    }

    method ParseCall(f: Func) returns (r: Outcome)
      requires Valid() && pos < |s| && s[pos] == '('
      modifies this
      ensures Agrees(r, CloseCall(f, ParseArgs(old(Rest())[1..], old(depth))), old(depth)) && depth >= old(depth)
      decreases |s| - pos, 0
    {
      assert Rest()[1..] == s[pos + 1..];
      pos := pos + 1;
      var args := ParseArguments();
      if args.Err? {
        return Err(args.error);
      }
      var closed := Eat(')');
      if !closed {
        return Err(ExpectedClose);
      }
      if !ArityOk(f, |args.value|) {
        return Err(BadArity);
      }
      return Ok(Call(f, args.value));
    }

    /** One argument, then another after each comma. */
    method ParseArguments() returns (r: Result<seq<Node>, ParseError>)
      requires Valid()
      modifies this
      ensures var spec := ParseArgs(old(Rest()), old(depth));
              && depth >= old(depth)
              && (spec.Err? ==> r == Err(spec.error))
              && (spec.Ok? ==> r == Ok(spec.value.0) && Valid() && Rest() == spec.value.1
                               && depth == old(depth) && pos > old(pos))
      decreases |s| - pos, 6
    {
      var first := ParseAdditiveExpr();
      if first.Err? {
        return Err(first.error);
      }
      var args := [first.value];
      assert ParseArgs(old(Rest()), old(depth)) == ArgsLoop(args, Rest(), depth);
      var comma := Eat(',');
      while comma
        invariant Valid() && depth == old(depth) && pos > old(pos)
        invariant ParseArgs(old(Rest()), old(depth)) ==
                  if comma then ArgsAfterComma(args, Rest(), depth) else Ok((args, Rest()))
        decreases |s| - pos, comma
      {
        var arg := ParseAdditiveExpr();
        if arg.Err? {
          return Err(arg.error);
        }
        ArgsLoopStep(args, arg.value, Rest(), depth);
        args := args + [arg.value];
        comma := Eat(',');
      }
      return Ok(args);
    }
  }

  /** What `ParseArgs` makes of the rest, the arguments so far being `args`. */
  ghost function ArgsLoop(args: seq<Node>, rest: string, depth: nat): Parsed<seq<Node>> {
    var t := SkipSpace(rest);
    if StartsWith(t, ',') then ArgsAfterComma(args, t[1..], depth) else Ok((args, t))
  }

  ghost function ArgsAfterComma(args: seq<Node>, rest: string, depth: nat): Parsed<seq<Node>> {
    var r := ParseArgs(rest, depth);
    if r.Err? then r else Ok((args + r.value.0, r.value.1))
  }

  lemma ArgsLoopStep(args: seq<Node>, arg: Node, rest: string, depth: nat)
    ensures var r := ArgsLoop([arg], rest, depth);
            ArgsLoop(args + [arg], rest, depth) == if r.Err? then r else Ok((args + r.value.0, r.value.1))
  {
    var t := SkipSpace(rest);
    if StartsWith(t, ',') && ParseArgs(t[1..], depth).Ok? {
      var more := ParseArgs(t[1..], depth).value.0;
      assert args + [arg] + more == args + ([arg] + more);
    }
  }

  lemma {:induction false} RunEndShift(k: CharClass, s: string, p: nat, i: nat)
    requires p + i <= |s|
    ensures p + RunEnd(k, s[p..], i) == RunEnd(k, s, p + i)
    decreases |s| - p - i
  {
    if p + i < |s| && In(k, s[p + i]) {
      RunEndShift(k, s, p, i + 1);
    }
  }

  method Parse(input: string) returns (r: Outcome)
    ensures r == ExpressionParser.Parse(input)
  {
    if |input| > MAX_EXPR_LEN {
      return Err(TooLong);
    }
    var p := new Parser(input);
    assert input[0..] == input;
    r := p.ParseAdditiveExpr();
    if r.Err? {
      return;
    }
    p.SkipWs();
    if p.pos != |input| {
      return Err(TrailingInput);
    }
  }
}
