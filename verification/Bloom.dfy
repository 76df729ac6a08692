/** Bytes as bit vectors and as numbers. */
module Octets {

  function NatOf(b: bv8): (n: nat)
    ensures n < 256
  {
    b as nat
  }

  /** The byte of a number, bit by bit. */
  function ByteOf(n: nat): bv8
    requires n < 256
  {
    if n == 0 then 0 else Append(ByteOf(n / 2), n % 2 == 1)
  }

  function Append(b: bv8, bit: bool): bv8 {
    (b << 1) | if bit then 1 else 0
  }

  lemma AppendDoubles(b: bv8, bit: bool)
    requires NatOf(b) < 128
    ensures NatOf(Append(b, bit)) == 2 * NatOf(b) + if bit then 1 else 0
  {
  }

  lemma LastBit(b: bv8)
    ensures NatOf(b) == 2 * NatOf(b >> 1) + if b & 1 != 0 then 1 else 0
    ensures Append(b >> 1, b & 1 != 0) == b
    ensures NatOf(b) == 0 ==> b == 0
  {
  }

  lemma {:induction false} NatOfByteOf(n: nat)
    requires n < 256
    ensures NatOf(ByteOf(n)) == n
  {
    if n > 0 {
      NatOfByteOf(n / 2);
      AppendDoubles(ByteOf(n / 2), n % 2 == 1);
    }
  }

  lemma {:induction false} ByteOfNatOf(b: bv8)
    ensures ByteOf(NatOf(b)) == b
    decreases NatOf(b)
  {
    LastBit(b);
    if NatOf(b) > 0 {
      ByteOfNatOf(b >> 1);
    }
  }
}

/** Bloom filters: the in-place bit array with double hashing, the merge by bitwise OR, the binary
    blob and the cross-shard merge of wire envelopes.

    SipHash is a parameter: nothing below depends on which pair of 64-bit words it yields. */
module Bloom {
  import opened Common
  import opened Octets

  type Bits = seq<bv8>
  type U64 = x: nat | x < U64_LIMIT
  type SipHash = string -> (U64, U64)

  const VERSION: nat := 1
  const MIN_K: nat := 2
  const MAX_K: nat := 12
  const MAGIC: Bits := [0x46, 0x44, 0x42, 0x46]

  datatype Filter = Filter(m: nat, k: nat, bits: Bits)

  ghost predicate WellFormed(f: Filter) {
    && 0 < f.m < U64_LIMIT && f.m % 8 == 0
    && MIN_K <= f.k <= MAX_K
    && |f.bits| == f.m / 8
  }

  // ----- Bits -----------------------------------------------------------------------------

  function Mask(j: nat): bv8
    requires j < 8
  {
    (1 as bv8) << j
  }

  predicate BitAt(bits: Bits, p: nat)
    requires p < 8 * |bits|
  {
    bits[p / 8] & Mask(p % 8) != 0
  }

  ghost function Ones(bits: Bits): set<nat> {
    set p: nat | p < 8 * |bits| && BitAt(bits, p)
  }

  function SetBit(bits: Bits, p: nat): Bits
    requires p < 8 * |bits|
  {
    bits[p / 8 := bits[p / 8] | Mask(p % 8)]
  }

  function Or(a: Bits, b: Bits): Bits
    requires |a| == |b|
  {
    seq(|a|, i requires 0 <= i < |a| => a[i] | b[i])
  }

  lemma MaskBits(x: bv8, j: nat, i: nat)
    requires i < 8 && j < 8
    ensures (x | Mask(j)) & Mask(i) != 0 <==> (x & Mask(i) != 0 || i == j)
  {
    assert Mask(0) == 1 && Mask(1) == 2 && Mask(2) == 4 && Mask(3) == 8;
    assert Mask(4) == 16 && Mask(5) == 32 && Mask(6) == 64 && Mask(7) == 128;
  }

  lemma OrBits(x: bv8, y: bv8, i: nat)
    requires i < 8
    ensures (x | y) & Mask(i) != 0 <==> (x & Mask(i) != 0 || y & Mask(i) != 0)
  {
    assert Mask(0) == 1 && Mask(1) == 2 && Mask(2) == 4 && Mask(3) == 8;
    assert Mask(4) == 16 && Mask(5) == 32 && Mask(6) == 64 && Mask(7) == 128;
  }

  lemma BytesEqualByBits(x: bv8, y: bv8)
    requires forall i: nat | i < 8 :: x & Mask(i) != 0 <==> y & Mask(i) != 0
    ensures x == y
  {
    assert Mask(0) == 1 && Mask(1) == 2 && Mask(2) == 4 && Mask(3) == 8;
    assert Mask(4) == 16 && Mask(5) == 32 && Mask(6) == 64 && Mask(7) == 128;
  }

  lemma SetBitOnes(bits: Bits, p: nat)
    requires p < 8 * |bits|
    ensures Ones(SetBit(bits, p)) == Ones(bits) + {p}
  {
    forall q: nat | q < 8 * |bits| ensures BitAt(SetBit(bits, p), q) <==> BitAt(bits, q) || q == p {
      if q / 8 == p / 8 {
        MaskBits(bits[q / 8], p % 8, q % 8);
      }
    }
  }

  lemma OrOnes(a: Bits, b: Bits)
    requires |a| == |b|
    ensures Ones(Or(a, b)) == Ones(a) + Ones(b)
  {
    forall p: nat | p < 8 * |a| ensures BitAt(Or(a, b), p) <==> BitAt(a, p) || BitAt(b, p) {
      OrBits(a[p / 8], b[p / 8], p % 8);
    }
  }

  /** A bit array is determined by its length and its ones. */
  lemma OnesDetermineBits(a: Bits, b: Bits)
    requires |a| == |b| && Ones(a) == Ones(b)
    ensures a == b
  {
    forall i | 0 <= i < |a| ensures a[i] == b[i] {
      forall j: nat | j < 8 ensures a[i] & Mask(j) != 0 <==> b[i] & Mask(j) != 0 {
        var p := 8 * i + j;
        assert p / 8 == i && p % 8 == j;
        assert BitAt(a, p) <==> p in Ones(a);
        assert BitAt(b, p) <==> p in Ones(b);
      }
      BytesEqualByBits(a[i], b[i]);
    }
  }

  // ----- Adding and testing ---------------------------------------------------------------

  /** The two words used for double hashing; the second one is never zero. */
  function HashPair(sip: SipHash, value: string): (U64, U64) {
    var (h1, h2) := sip(value);
    (h1, if h2 == 0 then 0x9E37_79B9_7F4A_7C15 else h2)
  }

  /** The bit probed by hash function `i`, with 64-bit wrap-around. */
  function Probe(h: (U64, U64), i: nat, m: nat): (p: nat)
    requires m > 0
    ensures p < m
  {
    (h.0 + (i * h.1) % U64_LIMIT) % U64_LIMIT % m
  }

  ghost function Probes(h: (U64, U64), k: nat, m: nat): (ps: set<nat>)
    requires m > 0
    ensures forall p | p in ps :: p < m
  {
    set i: nat | i < k :: Probe(h, i, m)
  }

  /** The bits after hash functions 0 to k - 1 have been applied. */
  function SetProbes(bits: Bits, h: (U64, U64), k: nat, m: nat): (r: Bits)
    requires 0 < m <= 8 * |bits|
    ensures |r| == |bits|
  {
    if k == 0 then bits else SetBit(SetProbes(bits, h, k - 1, m), Probe(h, k - 1, m))
  }

  function Add(sip: SipHash, f: Filter, value: string): (r: Filter)
    requires 0 < f.m <= 8 * |f.bits|
    ensures r.m == f.m && r.k == f.k && |r.bits| == |f.bits|
  {
    f.(bits := SetProbes(f.bits, HashPair(sip, value), f.k, f.m))
  }

  function AddAll(sip: SipHash, f: Filter, values: seq<string>): (r: Filter)
    requires 0 < f.m <= 8 * |f.bits|
    ensures r.m == f.m && r.k == f.k && |r.bits| == |f.bits|
  {
    if values == [] then f else Add(sip, AddAll(sip, f, values[..|values| - 1]), values[|values| - 1])
  }

  ghost predicate Tests(sip: SipHash, f: Filter, value: string)
    requires f.m <= 8 * |f.bits|
  {
    f.m > 0 && forall i: nat | i < f.k :: BitAt(f.bits, Probe(HashPair(sip, value), i, f.m))
  }

  function Merge(f: Filter, g: Filter): Filter {
    if f.m != g.m || f.k != g.k || |f.bits| != |g.bits| then f else f.(bits := Or(f.bits, g.bits))
  }

  lemma {:induction false} SetProbesOnes(bits: Bits, h: (U64, U64), k: nat, m: nat)
    requires 0 < m <= 8 * |bits|
    ensures Ones(SetProbes(bits, h, k, m)) == Ones(bits) + Probes(h, k, m)
  {
    if k > 0 {
      SetProbesOnes(bits, h, k - 1, m);
      SetBitOnes(SetProbes(bits, h, k - 1, m), Probe(h, k - 1, m));
      assert Probes(h, k, m) == Probes(h, k - 1, m) + {Probe(h, k - 1, m)};
    }
  }

  ghost function AllProbes(sip: SipHash, k: nat, m: nat, values: seq<string>): set<nat>
    requires m > 0
  {
    set v, p | v in values && p in Probes(HashPair(sip, v), k, m) :: p
  }

  lemma {:induction false} AddAllOnes(sip: SipHash, f: Filter, values: seq<string>)
    requires 0 < f.m <= 8 * |f.bits|
    ensures Ones(AddAll(sip, f, values).bits) == Ones(f.bits) + AllProbes(sip, f.k, f.m, values)
    decreases |values|
  {
    if values == [] {
      assert AllProbes(sip, f.k, f.m, values) == {};
    } else {
      var init, last := values[..|values| - 1], values[|values| - 1];
      AddAllOnes(sip, f, init);
      SetProbesOnes(AddAll(sip, f, init).bits, HashPair(sip, last), f.k, f.m);
      AllProbesConcat(sip, f.k, f.m, init, [last]);
      assert values == init + [last];
      assert AllProbes(sip, f.k, f.m, [last]) == Probes(HashPair(sip, last), f.k, f.m);
    }
  }

  lemma AllProbesConcat(sip: SipHash, k: nat, m: nat, us: seq<string>, vs: seq<string>)
    requires m > 0
    ensures AllProbes(sip, k, m, us + vs) == AllProbes(sip, k, m, us) + AllProbes(sip, k, m, vs)
  {
  }

  // ----- Double hashing, spelled out ------------------------------------------------------------

  /** From h1 on, h2 is added i times, wrapping at 64 bits. */
  function Walk(h1: nat, h2: nat, i: nat): nat {
    if i == 0 then h1 else (Walk(h1, h2, i - 1) + h2) % 0x1_0000_0000_0000_0000
  }

  /** The places a value walks to, where a step of zero is replaced by a constant. */
  ghost function Places(sip: SipHash, k: nat, m: nat, value: string): set<nat>
    requires m > 0
  {
    var h1: nat, h2: nat := sip(value).0, if sip(value).1 == 0 then 0x9E37_79B9_7F4A_7C15 else sip(value).1;
    set i: nat | i < k :: Walk(h1, h2, i) % m
  }

  lemma AddWraps(a: nat, b: nat)
    ensures (a % U64_LIMIT + b) % U64_LIMIT == (a + b) % U64_LIMIT
  {
  }

  lemma {:induction false} WalkIsSum(h1: nat, h2: nat, i: nat)
    requires h1 < U64_LIMIT
    ensures Walk(h1, h2, i) == (h1 + i * h2) % U64_LIMIT
  {
    if i > 0 {
      WalkIsSum(h1, h2, i - 1);
      AddWraps(h1 + (i - 1) * h2, h2);
      assert h1 + (i - 1) * h2 + h2 == h1 + i * h2;
    }
  }

  lemma ProbeIsWalk(h: (U64, U64), i: nat, m: nat)
    requires m > 0
    ensures Probe(h, i, m) == Walk(h.0, h.1, i) % m
  {
    WalkIsSum(h.0, h.1, i);
    AddWraps(i * h.1, h.0);
  }

  lemma PlacesAreProbes(sip: SipHash, k: nat, m: nat, value: string)
    requires m > 0
    ensures Places(sip, k, m, value) == Probes(HashPair(sip, value), k, m)
  {
    var h := HashPair(sip, value);
    forall i: nat ensures Probe(h, i, m) == Walk(h.0, h.1, i) % m {
      ProbeIsWalk(h, i, m);
    }
  }

  /** A value is found in a filter that holds the given values exactly when each of its places is a place
      of one of them. */
  lemma FoundIffPlacesTaken(sip: SipHash, m: nat, k: nat, values: seq<string>, value: string)
    requires 0 < m && m % 8 == 0
    ensures var f := AddAll(sip, Empty(m, k), values);
      Tests(sip, f, value) <==>
      forall p :: p in Places(sip, k, m, value) ==> exists v :: v in values && p in Places(sip, k, m, v)
  {
    var f := AddAll(sip, Empty(m, k), values);
    EmptyOnes(m, k);
    AddAllOnes(sip, Empty(m, k), values);
    TestsIffOnes(sip, f, value);
    PlacesAreProbes(sip, k, m, value);
    forall v ensures Places(sip, k, m, v) == Probes(HashPair(sip, v), k, m) {
      PlacesAreProbes(sip, k, m, v);
    }
  }

  lemma TestsIffOnes(sip: SipHash, f: Filter, value: string)
    requires 0 < f.m <= 8 * |f.bits|
    ensures Tests(sip, f, value) <==> Probes(HashPair(sip, value), f.k, f.m) <= Ones(f.bits)
  {
    var h := HashPair(sip, value);
    if Probes(h, f.k, f.m) <= Ones(f.bits) {
      forall i: nat | i < f.k ensures BitAt(f.bits, Probe(h, i, f.m)) {
        assert Probe(h, i, f.m) in Probes(h, f.k, f.m);
      }
    }
  }

  // ----- Which bit of which byte ----------------------------------------------------------------

  /** The i-th binary digit of a number, counted from the least significant. */
  function BitOf(n: nat, i: nat): nat {
    if i == 0 then n % 2 else BitOf(n / 2, i - 1)
  }

  lemma HalfOf(b: bv8)
    ensures NatOf(b >> 1) == NatOf(b) / 2 && (b & 1 != 0 <==> NatOf(b) % 2 == 1)
  {
    LastBit(b);
  }

  lemma ShiftedMask(b: bv8, j: nat)
    requires 0 < j < 8
    ensures b & Mask(j) != 0 <==> (b >> 1) & Mask(j - 1) != 0
  {
    assert Mask(0) == 1 && Mask(1) == 2 && Mask(2) == 4 && Mask(3) == 8;
    assert Mask(4) == 16 && Mask(5) == 32 && Mask(6) == 64 && Mask(7) == 128;
  }

  lemma {:induction false} BitOfByte(b: bv8, j: nat)
    requires j < 8
    ensures b & Mask(j) != 0 <==> BitOf(NatOf(b), j) == 1
    decreases j
  {
    HalfOf(b);
    if j == 0 {
      assert Mask(0) == 1;
    } else {
      BitOfByte(b >> 1, j - 1);
      ShiftedMask(b, j);
      HalvedBit(NatOf(b), NatOf(b >> 1), j);
    }
  }

  lemma HalvedBit(n: nat, half: nat, j: nat)
    requires j > 0 && half == n / 2
    ensures BitOf(n, j) == BitOf(half, j - 1)
  {
  }

  /** Bit p is bit p % 8, counted from the least significant, of byte p / 8. */
  lemma OnesByPosition(bits: Bits, p: nat)
    ensures p in Ones(bits) <==> p < 8 * |bits| && BitOf(NatOf(bits[p / 8]), p % 8) == 1
  {
    if p < 8 * |bits| {
      BitOfByte(bits[p / 8], p % 8);
    }
  }

  /** The filter of the source: fixed-size bits, changed in place. */
  class BloomFilter {
    const m: nat
    const k: nat
    const bits: array<bv8>

    /** Every bit below `m` has a byte; outside this the source panics on an index. */
    ghost predicate Valid() {
      m <= 8 * bits.Length
    }

    ghost function Value(): Filter
      reads bits
    {
      Filter(m, k, bits[..])
    }

    constructor (m: nat, k: nat)
      requires 0 < m < U64_LIMIT && m % 8 == 0
      ensures Valid() && fresh(bits) && Value() == Filter(m, k, seq(m / 8, _ => 0))
    {
      this.m := m;
      this.k := k;
      bits := new bv8[m / 8](_ => 0);
    }

    method AddValue(sip: SipHash, value: string)
      requires Valid() && m > 0
      modifies bits
      ensures Value() == Add(sip, old(Value()), value)
      ensures Ones(bits[..]) == old(Ones(bits[..])) + Places(sip, k, m, value)
    {
      var h := HashPair(sip, value);
      for i := 0 to k
        invariant bits[..] == SetProbes(old(bits[..]), h, i, m)
      {
        var bit := Probe(h, i, m);
        bits[bit / 8] := bits[bit / 8] | Mask(bit % 8);
      }
      SetProbesOnes(old(bits[..]), h, k, m);
      PlacesAreProbes(sip, k, m, value);
    }

    method Test(sip: SipHash, value: string) returns (found: bool)
      requires Valid()
      ensures found <==> Tests(sip, Value(), value)
      ensures found <==> m > 0 && Places(sip, k, m, value) <= Ones(bits[..])
    {
      if bits.Length == 0 || m == 0 {
        return false;
      }
      TestsIffOnes(sip, Value(), value);
      PlacesAreProbes(sip, k, m, value);
      var h := HashPair(sip, value);
      for i := 0 to k
        invariant forall j: nat | j < i :: BitAt(bits[..], Probe(h, j, m))
      {
        var bit := Probe(h, i, m);
        if bits[bit / 8] & Mask(bit % 8) == 0 {
          assert !BitAt(bits[..], Probe(h, i, m));
          return false;
        }
        assert BitAt(bits[..], Probe(h, i, m));
      }
      return true;
    }

    method MergeIn(other: BloomFilter)
      modifies bits
      ensures Value() == Merge(old(Value()), old(other.Value()))
    {
      if m != other.m || k != other.k || bits.Length != other.bits.Length {
        return;
      }
      for i := 0 to bits.Length
        invariant forall j :: 0 <= j < i ==> bits[j] == old(bits[j]) | old(other.bits[j])
        invariant forall j :: i <= j < bits.Length ==> bits[j] == old(bits[j])
        invariant other.bits != bits ==> other.bits[..] == old(other.bits[..])
      {
        bits[i] := bits[i] | other.bits[i];
      }
      assert bits[..] == Or(old(bits[..]), old(other.bits[..]));
    }
  }

  // ----- The blob -------------------------------------------------------------------------

  datatype CodecError = TooShort | BadMagic | BadVersion | BadK | BadM | LengthMismatch

  /** The `width` low bytes of `n`, least significant first. */
  function ToLe(n: nat, width: nat): (b: Bits)
    ensures |b| == width
  {
    if width == 0 then [] else [ByteOf(n % 256)] + ToLe(n / 256, width - 1)
  }

  function FromLe(b: Bits): nat {
    if b == [] then 0 else NatOf(b[0]) + 256 * FromLe(b[1..])
  }

  function Pow256(n: nat): nat {
    if n == 0 then 1 else 256 * Pow256(n - 1)
  }

  lemma {:induction false} FromLeToLe(n: nat, width: nat)
    requires n < Pow256(width)
    ensures FromLe(ToLe(n, width)) == n
    decreases width
  {
    if width > 0 {
      FromLeToLe(n / 256, width - 1);
      NatOfByteOf(n % 256);
      assert ToLe(n, width)[1..] == ToLe(n / 256, width - 1);
    }
  }

  lemma LowDigit(low: nat, rest: nat)
    requires low < 256
    ensures (low + 256 * rest) % 256 == low && (low + 256 * rest) / 256 == rest
  {
  }

  lemma PeelByte(b: bv8, rest: nat)
    ensures var n := NatOf(b) + 256 * rest; ByteOf(n % 256) == b && n / 256 == rest
  {
    LowDigit(NatOf(b), rest);
    ByteOfNatOf(b);
  }

  lemma {:induction false} ToLeFromLe(b: Bits)
    ensures ToLe(FromLe(b), |b|) == b && FromLe(b) < Pow256(|b|)
    decreases |b|
  {
    if b != [] {
      ToLeFromLe(b[1..]);
      PeelByte(b[0], FromLe(b[1..]));
      assert b == [b[0]] + b[1..];
    }
  }

  function ToBytes(f: Filter): Bits {
    MAGIC + ToLe(VERSION, 4) + ToLe(f.k, 4) + ToLe(f.m, 8) + f.bits
  }

  function FromBytes(b: Bits): Result<Filter, CodecError> {
    if |b| < 20 then Err(TooShort)
    else if b[..4] != MAGIC then Err(BadMagic)
    else if FromLe(b[4..8]) != VERSION then Err(BadVersion)
    else
      var k := FromLe(b[8..12]);
      if !(MIN_K <= k <= MAX_K) then Err(BadK)
      else
        var m := FromLe(b[12..20]);
        if m == 0 || m % 8 != 0 then Err(BadM)
        else if |b| != 20 + m / 8 then Err(LengthMismatch)
        else Ok(Filter(m, k, b[20..]))
  }

  lemma Limits()
    ensures Pow256(4) == 0x1_0000_0000 && Pow256(8) == U64_LIMIT
  {
    assert Pow256(2) == 0x1_0000;
    assert Pow256(4) == 256 * (256 * Pow256(2));
    assert Pow256(6) == 256 * (256 * Pow256(4));
    assert Pow256(8) == 256 * (256 * Pow256(6));
  }

  /** Decoding an encoded filter gives it back. */
  lemma DecodeEncode(f: Filter)
    requires WellFormed(f)
    ensures FromBytes(ToBytes(f)) == Ok(f)
  {
    Limits();
    var b := ToBytes(f);
    assert b[..4] == MAGIC && b[4..8] == ToLe(VERSION, 4) && b[8..12] == ToLe(f.k, 4);
    assert b[12..20] == ToLe(f.m, 8) && b[20..] == f.bits;
    FromLeToLe(VERSION, 4);
    FromLeToLe(f.k, 4);
    FromLeToLe(f.m, 8);
  }

  /** Every accepted blob is the encoding of a well-formed filter, so distinct blobs decode to
      distinct filters and every probed bit lies inside the array. */
  lemma EncodeDecode(b: Bits)
    requires FromBytes(b).Ok?
    ensures WellFormed(FromBytes(b).value) && ToBytes(FromBytes(b).value) == b
    ensures forall h: (U64, U64), i: nat :: Probe(h, i, FromBytes(b).value.m) / 8 < |FromBytes(b).value.bits|
  {
    Limits();
    ToLeFromLe(b[4..8]);
    ToLeFromLe(b[8..12]);
    ToLeFromLe(b[12..20]);
    assert b == b[..4] + b[4..8] + b[8..12] + b[12..20] + b[20..];
  }

  // ----- The layout -----------------------------------------------------------------------

  /** The i-th byte of a number, counted from the least significant. */
  function ByteAt(n: nat, i: nat): nat {
    if i == 0 then n % 256 else ByteAt(n / 256, i - 1)
  }

  lemma {:induction false} LeByte(n: nat, width: nat, i: nat)
    requires i < width
    ensures NatOf(ToLe(n, width)[i]) == ByteAt(n, i)
    decreases width
  {
    NatOfByteOf(n % 256);
    if i > 0 {
      LeByte(n / 256, width - 1, i - 1);
      assert ToLe(n, width)[i] == ToLe(n / 256, width - 1)[i - 1];
    }
  }

  ghost predicate SpellsLe(b: Bits, from: nat, width: nat, n: nat) {
    from + width <= |b| && forall i: nat | i < width :: NatOf(b[from + i]) == ByteAt(n, i)
  }

  lemma SliceSpells(b: Bits, from: nat, width: nat, n: nat)
    requires from + width <= |b| && b[from..from + width] == ToLe(n, width)
    ensures SpellsLe(b, from, width, n)
  {
    forall i: nat | i < width ensures NatOf(b[from + i]) == ByteAt(n, i) {
      LeByte(n, width, i);
      assert b[from + i] == b[from..from + width][i];
    }
  }

  /** "FDBF", version one, k and m with their least significant byte first, and the bits. */
  lemma EncodedLayout(f: Filter)
    ensures var b := ToBytes(f);
      && |b| == 20 + |f.bits| && b[20..] == f.bits
      && NatOf(b[0]) == 70 && NatOf(b[1]) == 68 && NatOf(b[2]) == 66 && NatOf(b[3]) == 70
      && SpellsLe(b, 4, 4, 1) && SpellsLe(b, 8, 4, f.k) && SpellsLe(b, 12, 8, f.m)
  {
    var b := ToBytes(f);
    assert b[4..4 + 4] == ToLe(VERSION, 4) && b[8..8 + 4] == ToLe(f.k, 4) && b[12..12 + 8] == ToLe(f.m, 8);
    SliceSpells(b, 4, 4, VERSION);
    SliceSpells(b, 8, 4, f.k);
    SliceSpells(b, 12, 8, f.m);
    MagicBytes(b[0], b[1], b[2], b[3]);
  }

  /** What is accepted, and why not. */
  lemma DecodesIff(b: Bits)
    ensures FromBytes(b).Ok? <==>
      && |b| >= 20 && NatOf(b[0]) == 70 && NatOf(b[1]) == 68 && NatOf(b[2]) == 66 && NatOf(b[3]) == 70
      && FromLe(b[4..8]) == 1 && 2 <= FromLe(b[8..12]) <= 12
      && FromLe(b[12..20]) > 0 && FromLe(b[12..20]) % 8 == 0 && |b| == 20 + FromLe(b[12..20]) / 8
  {
    if |b| >= 20 {
      assert b[..4] == MAGIC <==> b[0] == 0x46 && b[1] == 0x44 && b[2] == 0x42 && b[3] == 0x46;
      MagicBytes(b[0], b[1], b[2], b[3]);
    }
  }

  lemma MagicBytes(a: bv8, b: bv8, c: bv8, d: bv8)
    ensures NatOf(a) == 70 <==> a == 0x46
    ensures NatOf(b) == 68 <==> b == 0x44
    ensures NatOf(c) == 66 <==> c == 0x42
    ensures NatOf(d) == 70 <==> d == 0x46
  {
  }

  // ----- Sharded building -----------------------------------------------------------------

  /** The values each shard saw, and the order in which the shards are merged. */
  datatype Shards = Shard(values: seq<string>) | Merged(left: Shards, right: Shards)

  function Empty(m: nat, k: nat): Filter {
    Filter(m, k, seq(m / 8, _ => 0))
  }

  function ValuesOf(t: Shards): seq<string> {
    match t
    case Shard(values) => values
    case Merged(l, r) => ValuesOf(l) + ValuesOf(r)
  }

  function Build(sip: SipHash, m: nat, k: nat, t: Shards): Filter
    requires 0 < m && m % 8 == 0
  {
    match t
    case Shard(values) => AddAll(sip, Empty(m, k), values)
    case Merged(l, r) => Merge(Build(sip, m, k, l), Build(sip, m, k, r))
  }

  lemma EmptyOnes(m: nat, k: nat)
    ensures Ones(Empty(m, k).bits) == {}
  {
    forall p: nat | p < 8 * |Empty(m, k).bits| ensures !BitAt(Empty(m, k).bits, p) {
      assert Empty(m, k).bits[p / 8] == 0;
    }
  }

  lemma {:induction false} BuildOnes(sip: SipHash, m: nat, k: nat, t: Shards)
    requires 0 < m && m % 8 == 0
    ensures var f := Build(sip, m, k, t);
            f.m == m && f.k == k && |f.bits| == m / 8 && Ones(f.bits) == AllProbes(sip, k, m, ValuesOf(t))
  {
    match t
    case Shard(values) =>
      EmptyOnes(m, k);
      AddAllOnes(sip, Empty(m, k), values);
    case Merged(l, r) =>
      BuildOnes(sip, m, k, l);
      BuildOnes(sip, m, k, r);
      OrOnes(Build(sip, m, k, l).bits, Build(sip, m, k, r).bits);
      AllProbesConcat(sip, k, m, ValuesOf(l), ValuesOf(r));
  }

  /** However the values are spread over shards, in whatever order they are added and the shards
      merged, the filter is bit for bit the one a single pass over the same values builds. */
  lemma ShardedEqualsSinglePass(sip: SipHash, m: nat, k: nat, t: Shards, values: seq<string>)
    requires 0 < m && m % 8 == 0
    requires forall v :: v in values <==> v in ValuesOf(t)
    ensures Build(sip, m, k, t) == AddAll(sip, Empty(m, k), values)
  {
    BuildOnes(sip, m, k, t);
    BuildOnes(sip, m, k, Shard(values));
    assert AllProbes(sip, k, m, values) == AllProbes(sip, k, m, ValuesOf(t));
    OnesDetermineBits(Build(sip, m, k, t).bits, AddAll(sip, Empty(m, k), values).bits);
  }

  /** No value that any shard added tests false afterwards. */
  lemma NoFalseNegatives(sip: SipHash, m: nat, k: nat, t: Shards, value: string)
    requires 0 < m && m % 8 == 0
    requires value in ValuesOf(t)
    ensures var f := Build(sip, m, k, t); f.m <= 8 * |f.bits| && Tests(sip, f, value)
  {
    BuildOnes(sip, m, k, t);
    var f := Build(sip, m, k, t);
    forall i: nat | i < f.k ensures BitAt(f.bits, Probe(HashPair(sip, value), i, f.m)) {
      assert Probe(HashPair(sip, value), i, m) in Probes(HashPair(sip, value), k, m);
      assert Probe(HashPair(sip, value), i, m) in Ones(f.bits);
    }
  }

  // ----- Wire merge -----------------------------------------------------------------------

  /** A partial result: the tagged envelope with its base64 payload (none when the text is not
      base64), or any JSON that is not such an envelope. */
  datatype Wire = Envelope(payload: Option<Bits>) | Foreign(json: string)

  function Decoded(w: Wire): Result<Filter, CodecError>
    requires w.Envelope?
  {
    if w.payload.None? then Err(TooShort) else FromBytes(w.payload.value)
  }

  function MergeWire(dst: Wire, src: Wire): Wire {
    match (dst, src)
    case (Envelope(_), Envelope(_)) =>
      if Decoded(dst).Ok? && Decoded(src).Ok?
      then Envelope(Some(ToBytes(Merge(Decoded(dst).value, Decoded(src).value)))) else dst
    case (Envelope(_), Foreign(_)) => dst
    case (Foreign(_), Envelope(_)) => src
    case (Foreign(_), Foreign(_)) => dst
  }

  /** Partials of any kind, and the order in which they are merged. */
  datatype WireTree = Leaf(wire: Wire) | Join(left: WireTree, right: WireTree)

  function MergeTree(t: WireTree): Wire {
    match t
    case Leaf(w) => w
    case Join(l, r) => MergeWire(MergeTree(l), MergeTree(r))
  }

  function Leaves(t: WireTree): seq<Wire> {
    match t
    case Leaf(w) => [w]
    case Join(l, r) => Leaves(l) + Leaves(r)
  }

  predicate Decodes(w: Wire) { w.Envelope? && Decoded(w).Ok? }

  predicate HasShape(w: Wire, m: nat, k: nat) {
    Decodes(w) && Decoded(w).value.m == m && Decoded(w).value.k == k
  }

  /** The partials that decode have one shape. */
  ghost predicate OneShape(t: WireTree, m: nat, k: nat) {
    forall w :: w in Leaves(t) && Decodes(w) ==> HasShape(w, m, k)
  }

  ghost predicate HoldsFilter(t: WireTree) {
    exists w :: w in Leaves(t) && Decodes(w)
  }

  /** The first envelope is malformed. */
  predicate Spoilt(t: WireTree) { First(t).Some? && !Decodes(First(t).value) }

  /** Somewhere a malformed envelope comes before a filter in what is merged into one. */
  ghost predicate Absorbs(t: WireTree) {
    (Spoilt(t) && HoldsFilter(t)) || (t.Join? && (Absorbs(t.left) || Absorbs(t.right)))
  }

  /** The ones of all the leaves of one shape. */
  ghost function OnesOf(t: WireTree, m: nat, k: nat): set<nat> {
    match t
    case Leaf(w) => if HasShape(w, m, k) then Ones(Decoded(w).value.bits) else {}
    case Join(l, r) => OnesOf(l, m, k) + OnesOf(r, m, k)
  }

  /** The first envelope among the leaves. */
  function First(t: WireTree): Option<Wire> {
    match t
    case Leaf(w) => if w.Envelope? then Some(w) else None
    case Join(l, r) => if First(l).Some? then First(l) else First(r)
  }

  lemma {:induction false} FirstIsLeaf(t: WireTree)
    ensures First(t).Some? ==> First(t).value in Leaves(t) && First(t).value.Envelope?
    ensures First(t).None? ==> forall w :: w in Leaves(t) ==> w.Foreign?
  {
    if t.Join? {
      FirstIsLeaf(t.left);
      FirstIsLeaf(t.right);
    }
  }

  /** Merging two decoding partials. */
  lemma MergeOfDecoding(dst: Wire, src: Wire)
    requires Decodes(dst) && Decodes(src)
    ensures var d, s := Decoded(dst).value, Decoded(src).value;
      var out := MergeWire(dst, src);
      && HasShape(out, d.m, d.k)
      && Ones(Decoded(out).value.bits) == Ones(d.bits) + if HasShape(src, d.m, d.k) then Ones(s.bits) else {}
  {
    var d, s := Decoded(dst).value, Decoded(src).value;
    EncodeDecode(dst.payload.value);
    EncodeDecode(src.payload.value);
    if HasShape(src, d.m, d.k) {
      OrOnes(d.bits, s.bits);
    }
    DecodeEncode(Merge(d, s));
  }

  /** The first envelope decides: if it is malformed it is the result, and otherwise the result has
      its shape, at least its ones, and no ones but those of the leaves of that shape. */
  lemma {:induction false} FirstDecides(t: WireTree)
    ensures First(t).None? ==> MergeTree(t).Foreign? && Leaves(t) != [] && MergeTree(t) == Leaves(t)[0]
    ensures Spoilt(t) ==> MergeTree(t) == First(t).value
    ensures First(t).Some? && Decodes(First(t).value) ==>
      var f := Decoded(First(t).value).value;
      && HasShape(MergeTree(t), f.m, f.k)
      && Ones(f.bits) <= Ones(Decoded(MergeTree(t)).value.bits) <= OnesOf(t, f.m, f.k)
  {
    if t.Join? {
      FirstIsLeaf(t.left);
      FirstIsLeaf(t.right);
      FirstDecides(t.left);
      FirstDecides(t.right);
      var l, r := MergeTree(t.left), MergeTree(t.right);
      if Decodes(l) && Decodes(r) {
        MergeOfDecoding(l, r);
      }
    }
  }

  lemma {:induction false} NoFilterNoOnes(t: WireTree, m: nat, k: nat)
    requires !HoldsFilter(t)
    ensures OnesOf(t, m, k) == {} && !Decodes(MergeTree(t))
  {
    FirstIsLeaf(t);
    FirstDecides(t);
    if t.Join? {
      HoldsFilterSplits(t);
      NoFilterNoOnes(t.left, m, k);
      NoFilterNoOnes(t.right, m, k);
    } else {
      assert t.wire in Leaves(t);
    }
  }

  lemma HoldsFilterSplits(t: WireTree)
    requires t.Join?
    ensures HoldsFilter(t) <==> HoldsFilter(t.left) || HoldsFilter(t.right)
  {
    if w :| w in Leaves(t.left) && Decodes(w) {
      assert w in Leaves(t);
    }
    if w :| w in Leaves(t.right) && Decodes(w) {
      assert w in Leaves(t);
    }
  }

  /** When the filters have one shape and no malformed envelope absorbs one, the result has exactly the
      ones of all of them. */
  lemma {:induction false} OneShapeLosesNothing(t: WireTree, m: nat, k: nat)
    requires OneShape(t, m, k) && !Absorbs(t) && HoldsFilter(t)
    ensures HasShape(MergeTree(t), m, k) && Ones(Decoded(MergeTree(t)).value.bits) == OnesOf(t, m, k)
  {
    if t.Leaf? {
      assert t.wire in Leaves(t);
    } else {
      HoldsFilterSplits(t);
      assert OneShape(t.left, m, k) && OneShape(t.right, m, k);
      if !HoldsFilter(t.left) {
        LeftIsForeign(t);
        NoFilterNoOnes(t.left, m, k);
        OneShapeLosesNothing(t.right, m, k);
      } else {
        OneShapeLosesNothing(t.left, m, k);
        if HoldsFilter(t.right) {
          OneShapeLosesNothing(t.right, m, k);
          MergeOfDecoding(MergeTree(t.left), MergeTree(t.right));
        } else {
          NoFilterNoOnes(t.right, m, k);
        }
      }
    }
  }

  /** What comes before the first filter is no envelope, unless it absorbs the filter. */
  lemma LeftIsForeign(t: WireTree)
    requires t.Join? && !Absorbs(t) && HoldsFilter(t) && !HoldsFilter(t.left)
    ensures MergeTree(t.left).Foreign?
  {
    FirstIsLeaf(t.left);
    FirstDecides(t.left);
  }

  // ----- What a merge loses ---------------------------------------------------------------

  /** The partial of a shard that has seen the values. */
  function Ship(sip: SipHash, m: nat, k: nat, values: seq<string>): Wire
    requires 0 < m && m % 8 == 0
  {
    Envelope(Some(ToBytes(AddAll(sip, Empty(m, k), values))))
  }

  /** A reader of the partial finds the value in it. */
  ghost predicate Reports(sip: SipHash, w: Wire, value: string) {
    Decodes(w) && Tests(sip, Decoded(w).value, value)
  }

  /** A reader of the result finds every value that a reader of the partial finds. */
  ghost predicate Covers(sip: SipHash, out: Wire, w: Wire) {
    forall v :: Reports(sip, w, v) ==> Reports(sip, out, v)
  }

  /** The same kinds of partials, shapes included, in the same places, whatever bits they carry. */
  ghost predicate SameShapes(t: WireTree, u: WireTree) {
    match t
    case Leaf(w) => u.Leaf? && SameShape(w, u.wire)
    case Join(l, r) => u.Join? && SameShapes(l, u.left) && SameShapes(r, u.right)
  }

  predicate SameShape(w: Wire, x: Wire) {
    if Decodes(w) then HasShape(x, Decoded(w).value.m, Decoded(w).value.k)
    else w.Envelope? == x.Envelope? && !Decodes(x)
  }

  /** Whatever bits the partials carry, no value that a reader finds in one of them is lost. */
  ghost predicate LosesNothing(sip: SipHash, t: WireTree) {
    forall u, w :: SameShapes(t, u) && w in Leaves(u) ==> Covers(sip, MergeTree(u), w)
  }

  lemma ShipShape(sip: SipHash, m: nat, k: nat, values: seq<string>)
    requires 0 < m < U64_LIMIT && m % 8 == 0 && MIN_K <= k <= MAX_K
    ensures HasShape(Ship(sip, m, k, values), m, k)
    ensures Ones(Decoded(Ship(sip, m, k, values)).value.bits) == AllProbes(sip, k, m, values)
  {
    BuildOnes(sip, m, k, Shard(values));
    DecodeEncode(AddAll(sip, Empty(m, k), values));
  }

  lemma ShipReports(sip: SipHash, m: nat, k: nat, v: string)
    requires 0 < m < U64_LIMIT && m % 8 == 0 && MIN_K <= k <= MAX_K
    ensures Reports(sip, Ship(sip, m, k, [v]), v)
  {
    ShipShape(sip, m, k, [v]);
    NoFalseNegatives(sip, m, k, Shard([v]), v);
    DecodeEncode(AddAll(sip, Empty(m, k), [v]));
  }

  lemma NoOnesReportNothing(sip: SipHash, w: Wire, v: string)
    requires Decodes(w) && Ones(Decoded(w).value.bits) == {}
    ensures !Reports(sip, w, v)
  {
    EncodeDecode(w.payload.value);
    var f := Decoded(w).value;
    var p := Probe(HashPair(sip, v), 0, f.m);
    assert p !in Ones(f.bits);
    assert !BitAt(f.bits, p);
  }

  lemma MoreOnesReportMore(sip: SipHash, w: Wire, out: Wire, v: string)
    requires Decodes(w) && HasShape(out, Decoded(w).value.m, Decoded(w).value.k)
    requires Ones(Decoded(w).value.bits) <= Ones(Decoded(out).value.bits)
    requires Reports(sip, w, v)
    ensures Reports(sip, out, v)
  {
    var f, g := Decoded(w).value, Decoded(out).value;
    forall i: nat | i < g.k ensures BitAt(g.bits, Probe(HashPair(sip, v), i, g.m)) {
      assert Probe(HashPair(sip, v), i, f.m) in Ones(f.bits);
      assert Probe(HashPair(sip, v), i, g.m) in Ones(g.bits);
    }
  }

  lemma {:induction false} LeafOnes(t: WireTree, m: nat, k: nat, w: Wire)
    requires w in Leaves(t) && HasShape(w, m, k)
    ensures Ones(Decoded(w).value.bits) <= OnesOf(t, m, k)
  {
    if t.Join? {
      if w in Leaves(t.left) {
        LeafOnes(t.left, m, k, w);
      } else {
        LeafOnes(t.right, m, k, w);
      }
    }
  }

  lemma {:induction false} SameShapesKeepOneShape(t: WireTree, u: WireTree, m: nat, k: nat)
    requires SameShapes(t, u) && OneShape(t, m, k)
    ensures OneShape(u, m, k)
  {
    if t.Join? {
      assert OneShape(t.left, m, k) && OneShape(t.right, m, k);
      SameShapesKeepOneShape(t.left, u.left, m, k);
      SameShapesKeepOneShape(t.right, u.right, m, k);
    } else {
      assert t.wire in Leaves(t);
    }
  }

  lemma {:induction false} SameShapesKeepKinds(t: WireTree, u: WireTree)
    requires SameShapes(t, u)
    ensures HoldsFilter(t) <==> HoldsFilter(u)
    ensures First(t).Some? <==> First(u).Some?
    ensures First(t).Some? ==> SameShape(First(t).value, First(u).value)
    ensures Absorbs(t) <==> Absorbs(u)
  {
    if t.Join? {
      SameShapesKeepKinds(t.left, u.left);
      SameShapesKeepKinds(t.right, u.right);
      HoldsFilterSplits(t);
      HoldsFilterSplits(u);
      FirstIsLeaf(t);
      FirstIsLeaf(u);
    } else {
      assert t.wire in Leaves(t) && u.wire in Leaves(u);
    }
  }

  lemma OneShapeCovers(sip: SipHash, t: WireTree, m: nat, k: nat, w: Wire)
    requires OneShape(t, m, k) && !Absorbs(t) && w in Leaves(t)
    ensures Covers(sip, MergeTree(t), w)
  {
    forall v | Reports(sip, w, v) ensures Reports(sip, MergeTree(t), v) {
      OneShapeLosesNothing(t, m, k);
      LeafOnes(t, m, k, w);
      MoreOnesReportMore(sip, w, MergeTree(t), v);
    }
  }

  // ----- Losing a value -------------------------------------------------------------------

  /** What to put into the filters of each shape. */
  type Stock = (nat, nat) -> seq<string>

  /** The same shapes, with the filters holding what is given. */
  function Restock(sip: SipHash, t: WireTree, stock: Stock): WireTree {
    match t
    case Leaf(w) => Leaf(RestockWire(sip, w, stock))
    case Join(l, r) => Join(Restock(sip, l, stock), Restock(sip, r, stock))
  }

  function RestockWire(sip: SipHash, w: Wire, stock: Stock): Wire {
    if !Decodes(w) then w
    else
      var f := Decoded(w).value;
      Ship(sip, f.m, f.k, stock(f.m, f.k))
  }

  lemma RestockedWire(sip: SipHash, w: Wire, stock: Stock)
    ensures var x := RestockWire(sip, w, stock);
      && SameShape(w, x)
      && (Decodes(w) ==>
            var f := Decoded(w).value;
            && f.m > 0 && HasShape(x, f.m, f.k)
            && Ones(Decoded(x).value.bits) == AllProbes(sip, f.k, f.m, stock(f.m, f.k)))
  {
    if Decodes(w) {
      EncodeDecode(w.payload.value);
      var f := Decoded(w).value;
      ShipShape(sip, f.m, f.k, stock(f.m, f.k));
    }
  }

  lemma StockedWireReports(sip: SipHash, w: Wire, stock: Stock, v: string)
    requires Decodes(w) && stock(Decoded(w).value.m, Decoded(w).value.k) == [v]
    ensures Reports(sip, RestockWire(sip, w, stock), v)
  {
    EncodeDecode(w.payload.value);
    ShipReports(sip, Decoded(w).value.m, Decoded(w).value.k, v);
  }

  lemma {:induction false} Restocked(sip: SipHash, t: WireTree, stock: Stock)
    ensures SameShapes(t, Restock(sip, t, stock))
    ensures forall w :: w in Leaves(t) ==> RestockWire(sip, w, stock) in Leaves(Restock(sip, t, stock))
  {
    match t
    case Leaf(w) => RestockedWire(sip, w, stock);
    case Join(l, r) =>
      Restocked(sip, l, stock);
      Restocked(sip, r, stock);
  }

  lemma {:induction false} EmptiedShapeHasNoOnes(sip: SipHash, t: WireTree, stock: Stock, m: nat, k: nat)
    requires stock(m, k) == []
    ensures OnesOf(Restock(sip, t, stock), m, k) == {}
  {
    match t
    case Leaf(w) =>
      RestockedWire(sip, w, stock);
      if HasShape(w, m, k) {
        assert AllProbes(sip, k, m, []) == {};
      }
    case Join(l, r) =>
      EmptiedShapeHasNoOnes(sip, l, stock, m, k);
      EmptiedShapeHasNoOnes(sip, r, stock, m, k);
  }

  /** Nothing can be found in it. */
  ghost predicate Void(w: Wire) { Decodes(w) ==> Ones(Decoded(w).value.bits) == {} }

  lemma VoidMerges(dst: Wire, src: Wire)
    requires Void(dst) && Void(src)
    ensures Void(MergeWire(dst, src))
  {
    if Decodes(dst) && Decodes(src) {
      MergeOfDecoding(dst, src);
    }
  }

  lemma {:induction false} EmptiedIsVoid(sip: SipHash, t: WireTree, stock: Stock)
    requires forall m, k :: stock(m, k) == []
    ensures Void(MergeTree(Restock(sip, t, stock)))
  {
    match t
    case Leaf(w) =>
      RestockedWire(sip, w, stock);
      if Decodes(w) {
        assert AllProbes(sip, Decoded(w).value.k, Decoded(w).value.m, []) == {};
      }
    case Join(l, r) =>
      EmptiedIsVoid(sip, l, stock);
      EmptiedIsVoid(sip, r, stock);
      VoidMerges(MergeTree(Restock(sip, l, stock)), MergeTree(Restock(sip, r, stock)));
  }

  lemma VoidLoses(sip: SipHash, out: Wire, w: Wire, v: string)
    requires Void(out) && Reports(sip, w, v)
    ensures !Covers(sip, out, w)
  {
    if Decodes(out) {
      NoOnesReportNothing(sip, out, v);
    }
  }

  /** Where a malformed envelope absorbs a filter, a value held only there is lost. */
  lemma {:induction false} AbsorbedIsLost(sip: SipHash, t: WireTree, v: string) returns (u: WireTree, w: Wire)
    requires Absorbs(t)
    ensures SameShapes(t, u) && w in Leaves(u) && Reports(sip, w, v) && Void(MergeTree(u))
  {
    if Spoilt(t) && HoldsFilter(t) {
      var stock: Stock := (_, _) => [v];
      u := Restock(sip, t, stock);
      Restocked(sip, t, stock);
      var x :| x in Leaves(t) && Decodes(x);
      w := RestockWire(sip, x, stock);
      StockedWireReports(sip, x, stock, v);
      SameShapesKeepKinds(t, u);
      FirstDecides(u);
    } else {
      var none: Stock := (_, _) => [];
      var lost;
      if Absorbs(t.left) {
        lost, w := AbsorbedIsLost(sip, t.left, v);
        u := Join(lost, Restock(sip, t.right, none));
        Restocked(sip, t.right, none);
        EmptiedIsVoid(sip, t.right, none);
      } else {
        lost, w := AbsorbedIsLost(sip, t.right, v);
        u := Join(Restock(sip, t.left, none), lost);
        Restocked(sip, t.left, none);
        EmptiedIsVoid(sip, t.left, none);
      }
      VoidMerges(MergeTree(u.left), MergeTree(u.right));
    }
  }

  /** Where filters have different shapes, a value held only by the others is lost. */
  lemma MixedShapesLose(sip: SipHash, t: WireTree, v: string) returns (u: WireTree, w: Wire)
    requires (forall m, k :: !OneShape(t, m, k)) && !Absorbs(t)
    ensures SameShapes(t, u) && w in Leaves(u) && Reports(sip, w, v) && Void(MergeTree(u))
  {
    assert !OneShape(t, 0, 0);
    FirstIsLeaf(t);
    var f := Decoded(First(t).value).value;
    assert !OneShape(t, f.m, f.k);
    var x :| x in Leaves(t) && Decodes(x) && !HasShape(x, f.m, f.k);
    var stock: Stock := (m, k) => if m == f.m && k == f.k then [] else [v];
    u, w := Restock(sip, t, stock), RestockWire(sip, x, stock);
    Restocked(sip, t, stock);
    StockedWireReports(sip, x, stock, v);
    EmptiedShapeHasNoOnes(sip, t, stock, f.m, f.k);
    SameShapesKeepKinds(t, u);
    FirstDecides(u);
  }

  /** Whatever the filters hold, merging loses none of it exactly when they have one shape and no
      malformed envelope comes first in a part of the merge that holds a filter. */
  lemma NothingIsLostIff(sip: SipHash, t: WireTree)
    ensures LosesNothing(sip, t) <==> (exists m, k :: OneShape(t, m, k)) && !Absorbs(t)
  {
    if Absorbs(t) {
      var u, w := AbsorbedIsLost(sip, t, "");
      VoidLoses(sip, MergeTree(u), w, "");
    } else if m, k :| OneShape(t, m, k) {
      forall u, w | SameShapes(t, u) && w in Leaves(u) ensures Covers(sip, MergeTree(u), w) {
        SameShapesKeepOneShape(t, u, m, k);
        SameShapesKeepKinds(t, u);
        OneShapeCovers(sip, u, m, k, w);
      }
    } else {
      var u, w := MixedShapesLose(sip, t, "");
      VoidLoses(sip, MergeTree(u), w, "");
    }
  }

  /** A malformed envelope on the left absorbs a good one. */
  lemma MalformedEnvelopeAbsorbs(sip: SipHash, v: string)
    ensures var good := Ship(sip, 64, 2, [v]);
      Reports(sip, good, v) && !Decodes(MergeWire(Envelope(None), good))
  {
    ShipReports(sip, 64, 2, v);
  }

  /** A filter of another shape is dropped. */
  lemma OtherShapeIsDropped(sip: SipHash, v: string)
    ensures var other := Ship(sip, 128, 2, [v]);
      Reports(sip, other, v) && !Reports(sip, MergeWire(Ship(sip, 64, 2, []), other), v)
  {
    ShipReports(sip, 128, 2, v);
    ShipShape(sip, 64, 2, []);
    ShipShape(sip, 128, 2, [v]);
    MergeOfDecoding(Ship(sip, 64, 2, []), Ship(sip, 128, 2, [v]));
    assert AllProbes(sip, 2, 64, []) == {};
    NoOnesReportNothing(sip, MergeWire(Ship(sip, 64, 2, []), Ship(sip, 128, 2, [v])), v);
  }

  // ----- Partials of one query --------------------------------------------------------------

  /** What the shards of one query ship, with results of other kinds among it, as it is merged. */
  datatype Partials = Filtered(values: seq<string>) | Junk(json: string) | Both(left: Partials, right: Partials)

  function Shipped(sip: SipHash, m: nat, k: nat, p: Partials): WireTree
    requires 0 < m && m % 8 == 0
  {
    match p
    case Filtered(values) => Leaf(Ship(sip, m, k, values))
    case Junk(json) => Leaf(Foreign(json))
    case Both(l, r) => Join(Shipped(sip, m, k, l), Shipped(sip, m, k, r))
  }

  function AllValues(p: Partials): seq<string> {
    match p
    case Filtered(values) => values
    case Junk(_) => []
    case Both(l, r) => AllValues(l) + AllValues(r)
  }

  lemma {:induction false} ShippedShape(sip: SipHash, m: nat, k: nat, p: Partials)
    requires 0 < m < U64_LIMIT && m % 8 == 0 && MIN_K <= k <= MAX_K
    ensures var t := Shipped(sip, m, k, p);
      && OneShape(t, m, k) && OnesOf(t, m, k) == AllProbes(sip, k, m, AllValues(p))
      && forall w :: w in Leaves(t) && w.Envelope? ==> Decodes(w)
  {
    match p
    case Filtered(values) => ShipShape(sip, m, k, values);
    case Junk(_) => assert AllProbes(sip, k, m, []) == {};
    case Both(l, r) =>
      ShippedShape(sip, m, k, l);
      ShippedShape(sip, m, k, r);
      AllProbesConcat(sip, k, m, AllValues(l), AllValues(r));
  }

  lemma {:induction false} SoundTreesAbsorbNothing(t: WireTree)
    requires forall w :: w in Leaves(t) && w.Envelope? ==> Decodes(w)
    ensures !Absorbs(t) && (First(t).Some? ==> HoldsFilter(t))
  {
    FirstIsLeaf(t);
    if t.Join? {
      SoundTreesAbsorbNothing(t.left);
      SoundTreesAbsorbNothing(t.right);
    }
  }

  /** Merging the partials of one query in any tree gives, byte for byte, what one shard that has
      seen all their values would ship, unless there is no such partial. */
  lemma WireMergeIsSinglePass(sip: SipHash, m: nat, k: nat, p: Partials)
    requires 0 < m < U64_LIMIT && m % 8 == 0 && MIN_K <= k <= MAX_K
    ensures var t := Shipped(sip, m, k, p);
      if First(t).None? then MergeTree(t).Foreign? else MergeTree(t) == Ship(sip, m, k, AllValues(p))
  {
    var t := Shipped(sip, m, k, p);
    ShippedShape(sip, m, k, p);
    SoundTreesAbsorbNothing(t);
    FirstDecides(t);
    if First(t).Some? {
      OneShapeLosesNothing(t, m, k);
      ShipShape(sip, m, k, AllValues(p));
      SameContentsSameWire(MergeTree(t), Ship(sip, m, k, AllValues(p)), m, k);
    }
  }

  lemma SameContentsSameWire(a: Wire, b: Wire, m: nat, k: nat)
    requires HasShape(a, m, k) && HasShape(b, m, k) && Ones(Decoded(a).value.bits) == Ones(Decoded(b).value.bits)
    ensures a == b
  {
    EncodeDecode(a.payload.value);
    EncodeDecode(b.payload.value);
    OnesDetermineBits(Decoded(a).value.bits, Decoded(b).value.bits);
    assert Decoded(a).value == Decoded(b).value;
  }
}
