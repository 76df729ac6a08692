/** Half-up rounding on the plain decimal representation of a number.

    A number is its sign and its decimal digits before and after the point, the form in which the
    source prints it before rounding and reads it back afterwards. */
module DecimalRounding {
  import opened Decimals

  datatype Plain = Plain(neg: bool, whole: seq<Digit>, frac: seq<Digit>)

  // ----- Products -------------------------------------------------------------------------

  /** k * q, by repeated addition. */
  function Times(k: nat, q: nat): nat {
    if k == 0 then 0 else q + Times(k - 1, q)
  }

  lemma {:induction false} TimesIsProduct(k: nat, q: nat)
    ensures Times(k, q) == k * q
  {
    if k > 0 {
      TimesIsProduct(k - 1, q);
    }
  }

  lemma TimesDistributes(a: nat, b: nat, q: nat)
    ensures Times(a + b, q) == Times(a, q) + Times(b, q)
  {
    TimesIsProduct(a, q);
    TimesIsProduct(b, q);
    TimesIsProduct(a + b, q);
  }

  lemma {:induction false} TimesAssociates(a: nat, b: nat, c: nat)
    ensures Times(Times(a, b), c) == Times(a, Times(b, c))
  {
    if a > 0 {
      TimesAssociates(a - 1, b, c);
      TimesDistributes(b, Times(a - 1, b), c);
    }
  }

  lemma {:induction false} TimesMonotone(a: nat, b: nat, q: nat)
    requires a <= b
    ensures Times(a, q) <= Times(b, q)
    ensures a < b ==> Times(a, q) + q <= Times(b, q)
  {
    TimesDistributes(a, b - a, q);
    if a < b {
      TimesDistributes(1, b - a - 1, q);
      assert Times(1, q) == q + Times(0, q);
    }
  }

  // ----- Digits and their value -----------------------------------------------------------

  function Pow10(n: nat): (p: nat)
    ensures p >= 1
  {
    if n == 0 then 1 else 10 * Pow10(n - 1)
  }

  function Zeros(n: nat): (z: seq<Digit>)
    ensures |z| == n && forall i :: 0 <= i < n ==> z[i] == 0
  {
    if n == 0 then [] else Zeros(n - 1) + [0]
  }

  lemma {:induction false} Pow10Sum(a: nat, b: nat)
    ensures Pow10(a + b) == Times(Pow10(a), Pow10(b))
  {
    if a == 0 {
      assert Times(1, Pow10(b)) == Pow10(b) + Times(0, Pow10(b));
    } else {
      Pow10Sum(a - 1, b);
      TimesTen(Pow10(a - 1), Pow10(b));
    }
  }

  lemma TimesTen(a: nat, b: nat)
    ensures Times(10 * a, b) == 10 * Times(a, b) == Times(a, 10 * b)
  {
    TimesIsProduct(10 * a, b);
    TimesIsProduct(a, 10 * b);
    TimesIsProduct(a, b);
  }

  lemma {:induction false} ValBound(ds: seq<Digit>)
    ensures Val(ds) < Pow10(|ds|)
    decreases |ds|
  {
    if ds != [] {
      ValBound(ds[..|ds| - 1]);
    }
  }

  lemma ValSnoc(a: seq<Digit>, d: Digit)
    ensures Val(a + [d]) == 10 * Val(a) + d
  {
    assert (a + [d])[..|a|] == a;
  }

  lemma ValOne(d: Digit)
    ensures Val([d]) == d
  {
    assert [d][..0] == [];
  }

  lemma {:induction false} ValConcat(a: seq<Digit>, b: seq<Digit>)
    ensures Val(a + b) == Times(Val(a), Pow10(|b|)) + Val(b)
    decreases |b|
  {
    if b == [] {
      assert a + b == a;
      TimesIsProduct(Val(a), 1);
    } else {
      var init, last := b[..|b| - 1], b[|b| - 1];
      assert a + b == (a + init) + [last];
      ValConcat(a, init);
      ValSnoc(a + init, last);
      TimesTen(Val(a), Pow10(|init|));
    }
  }

  lemma {:induction false} ValZeros(n: nat)
    ensures Val(Zeros(n)) == 0
  {
    if n > 0 {
      ValZeros(n - 1);
      ValSnoc(Zeros(n - 1), 0);
    }
  }

  /** Adding one to a digit string; a carry out of the front puts a 1 before it. */
  function Increment(p: seq<Digit>): (r: seq<Digit>)
    ensures |p| <= |r| <= |p| + 1
  {
    if p == [] then [1]
    else if p[|p| - 1] == 9 then Increment(p[..|p| - 1]) + [0]
    else p[..|p| - 1] + [p[|p| - 1] + 1]
  }

  lemma {:induction false} IncrementAddsOne(p: seq<Digit>)
    ensures Val(Increment(p)) == Val(p) + 1
    decreases |p|
  {
    if p == [] {
      ValOne(1);
    } else {
      var init := p[..|p| - 1];
      if p[|p| - 1] == 9 {
        IncrementAddsOne(init);
        ValSnoc(Increment(init), 0);
      } else {
        ValSnoc(init, p[|p| - 1] + 1);
      }
    }
  }

  // ----- The rounded digits ---------------------------------------------------------------

  /** The digits before `cut`, half up. */
  function Kept(ds: seq<Digit>, cut: nat): (r: seq<Digit>)
    requires cut < |ds|
    ensures cut <= |r| <= cut + 1
  {
    if ds[cut] >= 5 then Increment(ds[..cut]) else ds[..cut]
  }

  /** Keep the digits before `cut`, half up, and replace the others by zeros. */
  function RoundAt(ds: seq<Digit>, cut: nat): (r: seq<Digit>)
    requires cut < |ds|
    ensures |ds| <= |r| <= |ds| + 1
  {
    Kept(ds, cut) + Zeros(|ds| - cut)
  }

  /** What is left of `Increment` at the point where the carry has reached `p`, `q` being done. */
  function Carried(carry: bool, p: seq<Digit>, q: seq<Digit>): seq<Digit> {
    if carry then Increment(p) + q else p + q
  }

  lemma CarryStep(p: seq<Digit>, i: nat, q: seq<Digit>)
    requires 0 < i <= |p|
    ensures Carried(true, p[..i], q) == if p[i - 1] == 9 then Carried(true, p[..i - 1], [0] + q)
                                        else Carried(false, p[..i - 1], [p[i - 1] + 1] + q)
  {
    assert p[..i][..i - 1] == p[..i - 1];
  }

  /** The carry has come to rest, or out of the front. */
  lemma CarryEnds(carry: bool, p: seq<Digit>, q: seq<Digit>)
    requires carry ==> p == []
    ensures Carried(carry, p, q) == if carry then [1] + (p + q) else p + q
  {
  }

  /** The source's in-place cut, zeroing and carry loop. */
  method RoundDigitsInPlace(ds: seq<Digit>, cut: nat) returns (r: seq<Digit>)
    requires cut < |ds|
    ensures r == RoundAt(ds, cut)
  {
    var a := new Digit[|ds|](i requires 0 <= i < |ds| => ds[i]);
    var carry := a[cut] >= 5;
    ZeroFrom(a, cut);
    assert a[..cut] == ds[..cut];
    assert Carried(carry, a[..cut], []) == Kept(ds, cut);
    carry := PropagateCarry(a, cut, carry);
    r := a[..];
    assert a[..] == a[..cut] + a[cut..];
    assert a[cut..] == Zeros(|ds| - cut);
    if carry {
      r := [1] + r;
    }
  }

  method ZeroFrom(a: array<Digit>, cut: nat)
    requires cut <= a.Length
    modifies a
    ensures a[..cut] == old(a[..cut])
    ensures forall k :: cut <= k < a.Length ==> a[k] == 0
  {
    for j := cut to a.Length
      invariant a[..cut] == old(a[..cut])
      invariant forall k :: cut <= k < j ==> a[k] == 0
    {
      a[j] := 0;
    }
  }

  method BumpDigit(a: array<Digit>, i: nat) returns (carry: bool)
    requires i < a.Length
    modifies a
    ensures carry == (old(a[i]) == 9) && a[i] == (if carry then 0 else old(a[i]) + 1)
    ensures forall k :: 0 <= k < a.Length && k != i ==> a[k] == old(a[k])
  {
    carry := a[i] == 9;
    a[i] := if carry then 0 else a[i] + 1;
  }

  /** Add `carryIn` to the digits before `cut`; what is returned is the carry out of the front. */
  method PropagateCarry(a: array<Digit>, cut: nat, carryIn: bool) returns (carry: bool)
    requires cut <= a.Length
    modifies a
    ensures a[cut..] == old(a[cut..])
    ensures (if carry then [1] + a[..cut] else a[..cut]) == Carried(carryIn, old(a[..cut]), [])
  {
    carry := carryIn;
    ghost var before: seq<Digit>, done: seq<Digit> := a[..cut], [];
    var i := cut;
    assert before[..cut] == before;
    while carry && i > 0
      invariant 0 <= i <= cut == i + |done|
      invariant forall k :: 0 <= k < i ==> a[k] == before[k]
      invariant forall k :: i <= k < cut ==> a[k] == done[k - i]
      invariant forall k :: cut <= k < a.Length ==> a[k] == old(a[k])
      invariant Carried(carry, before[..i], done) == Carried(carryIn, before, [])
      decreases i
    {
      CarryStep(before, i, done);
      i := i - 1;
      carry := BumpDigit(a, i);
      done := [a[i]] + done;
    }
    assert a[..cut] == before[..i] + done;
    CarryEnds(carry, before[..i], done);
  }

  // ----- What half-up rounding is ---------------------------------------------------------

  function Distance(a: int, b: int): nat { if a < b then b - a else a - b }

  ghost predicate Multiple(m: nat, q: nat) {
    exists k: nat :: m == Times(k, q)
  }

  /** `r` is the multiple of `q` nearest to `v`, the larger one on a tie. */
  ghost predicate IsHalfUp(v: nat, r: nat, q: nat) {
    Multiple(r, q)
    && forall m: nat | Multiple(m, q) :: Distance(v, r) < Distance(v, m) || (Distance(v, r) == Distance(v, m) && m <= r)
  }

  /** There is one half-up rounding. */
  lemma HalfUpUnique(v: nat, r: nat, r': nat, q: nat)
    requires IsHalfUp(v, r, q) && IsHalfUp(v, r', q)
    ensures r == r'
  {
  }

  lemma MultiplesApart(m: nat, r: nat, q: nat)
    requires Multiple(m, q) && Multiple(r, q) && m != r
    ensures Distance(m, r) >= q
  {
    var a: nat :| m == Times(a, q);
    var b: nat :| r == Times(b, q);
    if a < b {
      TimesMonotone(a, b, q);
    } else {
      TimesMonotone(b, a, q);
    }
  }

  /** Within half a step, and above on a tie, is nearest. */
  lemma WithinHalfStep(v: nat, r: nat, q: nat)
    requires Multiple(r, q) && 2 * v < 2 * r + q && 2 * r <= 2 * v + q
    ensures IsHalfUp(v, r, q)
  {
    forall m: nat | Multiple(m, q)
      ensures Distance(v, r) < Distance(v, m) || (Distance(v, r) == Distance(v, m) && m <= r)
    {
      if m != r {
        MultiplesApart(m, r, q);
      }
    }
  }

  lemma HalfStep(v: nat, r: nat, q: nat)
    requires q > 0 && IsHalfUp(v, r, q)
    ensures 2 * v < 2 * r + q && 2 * r <= 2 * v + q
  {
    var n: nat :| r == Times(n, q);
    assert r + q == Times(n + 1, q);
    assert Multiple(r + q, q);
    if n > 0 {
      assert r - q == Times(n - 1, q);
      assert Multiple(r - q, q);
    }
  }

  /** Half-up rounding commutes with a change of unit. */
  lemma ScaleHalfUp(v: nat, r: nat, q: nat, k: nat)
    requires q > 0 && k > 0 && IsHalfUp(v, r, q)
    ensures IsHalfUp(Times(v, k), Times(r, k), Times(q, k))
  {
    HalfStep(v, r, q);
    var n: nat :| r == Times(n, q);
    TimesAssociates(n, q, k);
    ScaleInequality(v, r, q, k);
    ScaleInequality(r, v, q, k);
    WithinHalfStep(Times(v, k), Times(r, k), Times(q, k));
  }

  lemma {:induction false} ScaleInequality(a: nat, b: nat, q: nat, k: nat)
    requires k > 0
    ensures 2 * a < 2 * b + q ==> 2 * Times(a, k) < 2 * Times(b, k) + Times(q, k)
    ensures 2 * a <= 2 * b + q ==> 2 * Times(a, k) <= 2 * Times(b, k) + Times(q, k)
  {
    TimesDistributes(a, a, k);
    TimesDistributes(b, b, k);
    TimesDistributes(2 * b, q, k);
    if 2 * a <= 2 * b + q {
      TimesMonotone(2 * a, 2 * b + q, k);
    }
  }

  lemma FirstDigitDecides(ds: seq<Digit>)
    requires ds != []
    ensures ds[0] >= 5 <==> 2 * Val(ds) >= Pow10(|ds|)
  {
    var d, tail := ds[0], ds[1..];
    assert ds == [d] + tail;
    LeadingDigit(d, tail);
  }

  lemma LeadingDigit(d: Digit, tail: seq<Digit>)
    ensures d >= 5 <==> 2 * Val([d] + tail) >= Pow10(|tail| + 1)
  {
    var u := Pow10(|tail|);
    ValConcat([d], tail);
    ValOne(d);
    ValBound(tail);
    TimesIsProduct(5, u);
    TimesIsProduct(4, u);
    if d >= 5 {
      TimesMonotone(5, d, u);
    } else {
      TimesMonotone(d, 4, u);
    }
  }

  /** Cutting, zeroing and carrying is half-up rounding to a multiple of the cut digit's unit. */
  lemma RoundAtIsHalfUp(ds: seq<Digit>, cut: nat)
    requires cut < |ds|
    ensures IsHalfUp(Val(ds), Val(RoundAt(ds, cut)), Pow10(|ds| - cut))
  {
    var front, back := ds[..cut], ds[cut..];
    assert ds == front + back;
    SplitIsHalfUp(front, back);
  }

  lemma SplitIsHalfUp(front: seq<Digit>, back: seq<Digit>)
    requires back != []
    ensures var head := if back[0] >= 5 then Increment(front) else front;
            IsHalfUp(Val(front + back), Val(head + Zeros(|back|)), Pow10(|back|))
  {
    var q := Pow10(|back|);
    var head := if back[0] >= 5 then Increment(front) else front;
    ValConcat(front, back);
    ValBound(back);
    FirstDigitDecides(back);
    IncrementAddsOne(front);
    ValConcat(head, Zeros(|back|));
    ValZeros(|back|);
    assert back[0] >= 5 ==> Times(Val(head), q) == q + Times(Val(front), q);
    WithinHalfStep(Val(front + back), Times(Val(head), q), q);
  }

  // ----- Rounding a number ----------------------------------------------------------------

  function AllDigits(x: Plain): seq<Digit> { x.whole + x.frac }

  /** The number that a digit string and a decimal-point position spell. */
  function Reconstruct(neg: bool, ds: seq<Digit>, point: int): Plain {
    if point <= 0 then Plain(neg, [0], Zeros(-point) + ds)
    else if point >= |ds| then Plain(neg, ds + Zeros(point - |ds|), [])
    else Plain(neg, ds[..point], ds[point..])
  }

  /** Decimal rounding has no negative zero. */
  function NormalizeZero(x: Plain): Plain {
    if Val(AllDigits(x)) == 0 then x.(neg := false) else x
  }

  function RoundHalfUp(x: Plain, digits: int): Plain {
    var ds := AllDigits(x);
    var cut := |x.whole| + digits;
    if cut >= |ds| then x
    else if cut < 0 then Plain(false, [0], [])
    else Respelled(x, RoundAt(ds, cut))
  }

  /** The number whose digits are `r` and whose point lies as far from the end as that of `x`. */
  function Respelled(x: Plain, r: seq<Digit>): Plain {
    NormalizeZero(Reconstruct(x.neg, r, |r| - |x.frac|))
  }

  method RoundHalfUpInPlace(x: Plain, digits: int) returns (r: Plain)
    ensures r == RoundHalfUp(x, digits)
  {
    var ds := x.whole + x.frac;
    var cut := |x.whole| + digits;
    if cut >= |ds| {
      return x;
    }
    if cut < 0 {
      return Plain(false, [0], []);
    }
    var rounded := RoundDigitsInPlace(ds, cut);
    var point := |x.whole|;
    if |rounded| > |ds| {
      point := point + 1;
    }
    assert point == |rounded| - |x.frac|;
    r := NormalizeZero(Reconstruct(x.neg, rounded, point));
  }

  /** Spelling digits out with a point among or behind them keeps their value and their scale. */
  lemma ReconstructKeepsValue(neg: bool, ds: seq<Digit>, point: int)
    ensures var x := Reconstruct(neg, ds, point);
            if point <= |ds| then Val(AllDigits(x)) == Val(ds) && |x.frac| == |ds| - point
            else Val(AllDigits(x)) == Times(Val(ds), Pow10(point - |ds|)) && x.frac == []
  {
    if point <= 0 {
      LeadingZeros(-point, ds);
      assert [0] + (Zeros(-point) + ds) == AllDigits(Reconstruct(neg, ds, point));
    } else if point >= |ds| {
      TrailingZeros(ds, point - |ds|);
      assert ds + Zeros(point - |ds|) == AllDigits(Reconstruct(neg, ds, point));
    } else {
      assert ds == AllDigits(Reconstruct(neg, ds, point));
    }
  }

  lemma LeadingZeros(n: nat, ds: seq<Digit>)
    ensures Val([0] + (Zeros(n) + ds)) == Val(ds)
  {
    ValOne(0);
    ValConcat([0], Zeros(n) + ds);
    ValConcat(Zeros(n), ds);
    ValZeros(n);
  }

  lemma TrailingZeros(ds: seq<Digit>, n: nat)
    ensures Val(ds + Zeros(n)) == Times(Val(ds), Pow10(n)) && (n == 0 ==> Val(ds + Zeros(n)) == Val(ds))
  {
    ValConcat(ds, Zeros(n));
    ValZeros(n);
    TimesIsProduct(Val(ds), 1);
  }

  /** The magnitude of `x` in units of 10^-scale. */
  function Scaled(x: Plain, scale: nat): nat
    requires scale >= |x.frac|
  {
    Times(Val(AllDigits(x)), Pow10(scale - |x.frac|))
  }

  /** Rounding yields the multiple of 10^-digits nearest to the magnitude, ties away from zero, for
      every number and every digit count.  Both are compared in units of 10^-scale, fine enough to
      write down `x` and, when `digits` is positive, the rounding step. */
  lemma RoundsHalfUp(x: Plain, digits: int, scale: nat)
    requires scale >= |x.frac| && scale >= digits
    ensures |RoundHalfUp(x, digits).frac| <= scale
    ensures IsHalfUp(Scaled(x, scale), Scaled(RoundHalfUp(x, digits), scale), Pow10(scale - digits))
  {
    var cut := |x.whole| + digits;
    if cut >= |AllDigits(x)| {
      FineEnoughIsMultiple(x, digits, scale);
    } else if cut < 0 {
      TinyRoundsToZero(x, digits, scale);
      assert Val([0]) == 0 by { ValOne(0); }
      assert AllDigits(RoundHalfUp(x, digits)) == [0];
    } else {
      InsideRoundsHalfUp(x, digits, scale);
    }
  }

  lemma FineEnoughIsMultiple(x: Plain, digits: int, scale: nat)
    requires |x.frac| <= digits <= scale
    ensures IsHalfUp(Scaled(x, scale), Scaled(x, scale), Pow10(scale - digits))
  {
    var v := Val(AllDigits(x));
    var coarse, step := Pow10(digits - |x.frac|), Pow10(scale - digits);
    Pow10Sum(digits - |x.frac|, scale - digits);
    TimesAssociates(v, coarse, step);
    assert Scaled(x, scale) == Times(Times(v, coarse), step);
    assert Multiple(Scaled(x, scale), step);
    WithinHalfStep(Scaled(x, scale), Scaled(x, scale), step);
  }

  lemma InsideRoundsHalfUp(x: Plain, digits: int, scale: nat)
    requires scale >= |x.frac| && 0 <= |x.whole| + digits < |AllDigits(x)|
    ensures var r := Respelled(x, RoundAt(AllDigits(x), |x.whole| + digits));
            && |r.frac| == |x.frac| && scale >= digits
            && IsHalfUp(Scaled(x, scale), Scaled(r, scale), Pow10(scale - digits))
  {
    var ds := AllDigits(x);
    var cut := |x.whole| + digits;
    var r := RoundAt(ds, cut);
    RoundAtIsHalfUp(ds, cut);
    assert |ds| - cut == |x.frac| - digits;
    RefineScaled(x, r, digits, scale);
  }

  lemma RefineScaled(x: Plain, r: seq<Digit>, digits: int, scale: nat)
    requires digits <= |x.frac| <= scale && |r| >= |x.frac|
    requires IsHalfUp(Val(AllDigits(x)), Val(r), Pow10(|x.frac| - digits))
    ensures |Respelled(x, r).frac| == |x.frac|
    ensures IsHalfUp(Scaled(x, scale), Scaled(Respelled(x, r), scale), Pow10(scale - digits))
  {
    RespelledValue(x, r);
    Refine(Val(AllDigits(x)), Val(r), |x.frac| - digits, scale - |x.frac|);
  }

  lemma Refine(v: nat, r: nat, n: nat, k: nat)
    requires IsHalfUp(v, r, Pow10(n))
    ensures IsHalfUp(Times(v, Pow10(k)), Times(r, Pow10(k)), Pow10(n + k))
  {
    Pow10Sum(n, k);
    ScaleHalfUp(v, r, Pow10(n), Pow10(k));
  }

  lemma RespelledValue(x: Plain, r: seq<Digit>)
    requires |r| >= |x.frac|
    ensures Val(AllDigits(Respelled(x, r))) == Val(r) && |Respelled(x, r).frac| == |x.frac|
  {
    ReconstructKeepsValue(x.neg, r, |r| - |x.frac|);
  }

  lemma TinyRoundsToZero(x: Plain, digits: int, scale: nat)
    requires scale >= |x.frac| && |x.whole| + digits < 0
    ensures IsHalfUp(Scaled(x, scale), 0, Pow10(scale - digits))
  {
    var n := |AllDigits(x)| + (scale - |x.frac|);
    ValBound(AllDigits(x));
    Pow10Sum(|AllDigits(x)|, scale - |x.frac|);
    TimesMonotone(Val(AllDigits(x)), Pow10(|AllDigits(x)|), Pow10(scale - |x.frac|));
    assert Scaled(x, scale) <= Pow10(n);
    Pow10Grows(n + 1, scale - digits);
    assert 0 == Times(0, Pow10(scale - digits));
    WithinHalfStep(Scaled(x, scale), 0, Pow10(scale - digits));
  }

  lemma {:induction false} Pow10Grows(a: nat, b: nat)
    requires a <= b
    ensures Pow10(a) <= Pow10(b)
    decreases b
  {
    if a < b {
      Pow10Grows(a, b - 1);
    }
  }

  /** A sign survives rounding unless the result is zero. */
  lemma RoundingKeepsSign(x: Plain, digits: int)
    ensures var r := RoundHalfUp(x, digits); r.neg == x.neg || (!r.neg && Val(AllDigits(r)) == 0)
  {
    ValOne(0);
    assert AllDigits(Plain(false, [0], [])) == [0];
  }

  /** Rounding a rounded number at the same digit count does not change its value. */
  lemma RoundingTwice(x: Plain, digits: int, scale: nat)
    requires scale >= |x.frac| && scale >= digits
    ensures var r := RoundHalfUp(x, digits);
            var again := RoundHalfUp(r, digits);
            |r.frac| <= scale && |again.frac| <= scale && Scaled(again, scale) == Scaled(r, scale)
  {
    var r := RoundHalfUp(x, digits);
    var again := RoundHalfUp(r, digits);
    RoundsHalfUp(x, digits, scale);
    RoundsHalfUp(r, digits, scale);
    var v, step := Scaled(r, scale), Pow10(scale - digits);
    WithinHalfStep(v, v, step);
    HalfUpUnique(v, v, Scaled(again, scale), step);
  }
}
