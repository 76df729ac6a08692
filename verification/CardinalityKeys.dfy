/** The canonical byte keys of the exact-distinct aggregator.

    A key is what one value, one field of a row, or one whole row puts into the set: a type prefix,
    a field tag or a length-prefixed tuple, replaced by a SHA-256 digest when it is over-long.
    SHA-256 is a parameter; where distinctness matters, the strings hashed in the run are assumed
    not to collide with each other. */
module CardinalityKeys {
  import opened Common
  import opened Decimals

  type Byte = x: int | 0 <= x < 256
  type Bytes = seq<Byte>
  type Sha256 = Bytes -> Bytes

  const MAX_CARDINALITY_KEY_BYTES: nat := 4096
  const U32_LIMIT: nat := 0x1_0000_0000

  /** A JSON value; numbers, arrays and objects stand for their serialized text. */
  datatype Value = Null | Str(text: Bytes) | Num(text: Bytes) | Bool(b: bool) | Nested(text: Bytes)

  /** A column of a row may be absent. */
  type Row = seq<Option<Value>>

  ghost predicate IsDigest(sha: Sha256) {
    forall x :: |sha(x)| == 32
  }

  /** Only strings over the key bound are ever hashed. */
  predicate IsHashed(x: Bytes) { |x| > MAX_CARDINALITY_KEY_BYTES }

  /** The strings among the inputs that are hashed do not collide. */
  ghost predicate CollisionFree(sha: Sha256, inputs: set<Bytes>) {
    forall x, y | x in inputs && y in inputs && IsHashed(x) && IsHashed(y) && sha(x) == sha(y) :: x == y
  }

  // ----- Text -----------------------------------------------------------------------------

  const COLON: Byte := 58
  const NUL: Byte := 0
  /** The UTF-8 bytes of "…sha256:". */
  const DIGEST_PREFIX: Bytes := [0xE2, 0x80, 0xA6, 115, 104, 97, 50, 53, 54, COLON]
  const NULL_KEY: Bytes := [95, 95, 110, 117, 108, 108, 95, 95]
  const TRUE_TEXT: Bytes := [116, 114, 117, 101]
  const FALSE_TEXT: Bytes := [102, 97, 108, 115, 101]

  function HexDigit(d: nat): Byte
    requires d < 16
  {
    if d < 10 then 48 + d else 87 + d
  }

  /** Two lower-case hexadecimal digits per byte. */
  function Hex(b: Bytes): (h: Bytes)
    ensures |h| == 2 * |b|
  {
    if b == [] then [] else [HexDigit(b[0] / 16), HexDigit(b[0] % 16)] + Hex(b[1..])
  }

  lemma {:induction false} HexInjective(a: Bytes, b: Bytes)
    requires Hex(a) == Hex(b)
    ensures a == b
    decreases |a|
  {
    if a == [] {
    } else {
      var ha, hb := Hex(a), Hex(b);
      assert ha[0] == hb[0] && ha[1] == hb[1];
      assert a[0] == 16 * (a[0] / 16) + a[0] % 16 && b[0] == 16 * (b[0] / 16) + b[0] % 16;
      assert ha[2..] == Hex(a[1..]) && hb[2..] == Hex(b[1..]);
      HexInjective(a[1..], b[1..]);
      assert a == [a[0]] + a[1..] && b == [b[0]] + b[1..];
    }
  }

  function LowByte(n: nat): Byte {
    n % 256
  }

  /** The four big-endian bytes of a 32-bit index. */
  function BigEndian(n: nat): Bytes
    requires n < U32_LIMIT
  {
    [n / 0x100_0000, LowByte(n / 0x1_0000), LowByte(n / 0x100), LowByte(n)]
  }

  lemma BigEndianInjective(m: nat, n: nat)
    requires m < U32_LIMIT && n < U32_LIMIT && BigEndian(m) == BigEndian(n)
    ensures m == n
  {
    BigEndianValue(m);
    BigEndianValue(n);
  }

  lemma BigEndianValue(n: nat)
    requires n < U32_LIMIT
    ensures var b := BigEndian(n);
      n == 0x100_0000 * (b[0] as int) + 0x1_0000 * (b[1] as int) + 0x100 * (b[2] as int) + b[3] as int
  {
    assert n / 0x1_0000 == n / 0x100_0000 * 256 + n / 0x1_0000 % 256;
    assert n / 0x100 == n / 0x1_0000 * 256 + n / 0x100 % 256;
  }

  /** The decimal text of a number. */
  function Decimal(n: nat): (d: Bytes)
    ensures d != [] && forall i :: 0 <= i < |d| ==> 48 <= d[i] < 58
  {
    seq(|DigitsOf(n)|, i requires 0 <= i < |DigitsOf(n)| => 48 + (DigitsOf(n)[i] as int))
  }

  lemma DecimalInjective(m: nat, n: nat)
    requires Decimal(m) == Decimal(n)
    ensures m == n
  {
    forall i | 0 <= i < |DigitsOf(m)| ensures DigitsOf(m)[i] == DigitsOf(n)[i] {
      assert Decimal(m)[i] == Decimal(n)[i];
    }
    assert DigitsOf(m) == DigitsOf(n);
    ValDigits(m);
    ValDigits(n);
  }

  /** A decimal number followed by a colon can be read back unambiguously. */
  lemma LengthPrefixInjective(m: nat, n: nat, x: Bytes, y: Bytes)
    requires Decimal(m) + [COLON] + x == Decimal(n) + [COLON] + y
    ensures m == n && x == y
  {
    var l, r := Decimal(m) + [COLON] + x, Decimal(n) + [COLON] + y;
    assert l[|Decimal(m)|] == COLON && r[|Decimal(n)|] == COLON;
    assert |Decimal(m)| == |Decimal(n)|;
    assert Decimal(m) == l[..|Decimal(m)|] == r[..|Decimal(n)|] == Decimal(n);
    DecimalInjective(m, n);
    assert x == l[|Decimal(m)| + 1..] && y == r[|Decimal(n)| + 1..];
  }

  // ----- Keys -----------------------------------------------------------------------------

  function DigestKey(sha: Sha256, full: Bytes): Bytes {
    DIGEST_PREFIX + Hex(sha(full))
  }

  function ClipToKeyCap(sha: Sha256, raw: Bytes): Bytes {
    if IsHashed(raw) then DigestKey(sha, raw) else raw
  }

  /** The type-prefixed text of a value, before any clipping. */
  function RawKey(v: Value): Bytes {
    match v
    case Null => NULL_KEY
    case Str(s) => [115, COLON] + s
    case Num(text) => [110, COLON] + text
    case Bool(b) => [98, COLON] + if b then TRUE_TEXT else FALSE_TEXT
    case Nested(text) => [106, COLON] + text
  }

  /** The key of one value.  A string over the cap is hashed together with its tag without the
      tagged copy ever being built. */
  function ValueToKey(sha: Sha256, value: Option<Value>): Bytes {
    match value
    case None => NULL_KEY
    case Some(Null) => NULL_KEY
    case Some(Str(s)) =>
      if |s| > MAX_CARDINALITY_KEY_BYTES then DIGEST_PREFIX + Hex(sha([115, COLON] + s))
      else ClipToKeyCap(sha, [115, COLON] + s)
    case Some(other) => ClipToKeyCap(sha, RawKey(other))
  }

  /** An absent column counts as null. */
  function Canonical(value: Option<Value>): Value {
    if value.None? then Null else value.value
  }

  function Tagged(field: nat, key: Bytes): Bytes
    requires field < U32_LIMIT
  {
    [102] + Hex(BigEndian(field)) + [COLON] + key
  }

  /** Field positions past 32 bits share the last index. */
  function FieldIndex(i: nat): (field: nat)
    ensures field < U32_LIMIT
  {
    if i < U32_LIMIT then i else U32_LIMIT - 1
  }

  /** Each part with its length in front and a NUL behind. */
  function Composite(parts: seq<Bytes>): Bytes {
    if parts == [] then [] else Composite(parts[..|parts| - 1]) + Part(parts[|parts| - 1])
  }

  function Part(p: Bytes): Bytes {
    Decimal(|p|) + [COLON] + p + [NUL]
  }

  // ----- Injectivity ----------------------------------------------------------------------

  /** The direct hash of a long string is what clipping its tagged copy would give. */
  lemma ValueToKeyIsClippedRawKey(sha: Sha256, value: Option<Value>)
    ensures ValueToKey(sha, value) == ClipToKeyCap(sha, RawKey(Canonical(value)))
  {
  }

  lemma RawKeyInjective(u: Value, v: Value)
    requires RawKey(u) == RawKey(v)
    ensures u == v
  {
    var k, l := RawKey(u), RawKey(v);
    assert k[0] == l[0];
    if !u.Null? {
      assert k[2..] == l[2..];
      if u.Bool? {
        assert k[2..][0] == if u.b then 116 else 102;
        assert l[2..][0] == if v.b then 116 else 102;
      } else {
        assert k[2..] == u.text && l[2..] == v.text;
      }
    }
  }

  /** Clipping keeps keys apart that do not start like a clipped one: short keys are kept, long
      ones are told apart by their digests, and a short one never looks like a digest. */
  lemma ClipInjective(sha: Sha256, x: Bytes, y: Bytes)
    requires CollisionFree(sha, {x, y})
    requires x != [] && y != [] && x[0] != DIGEST_PREFIX[0] && y[0] != DIGEST_PREFIX[0]
    requires ClipToKeyCap(sha, x) == ClipToKeyCap(sha, y)
    ensures x == y
  {
    var k, l := ClipToKeyCap(sha, x), ClipToKeyCap(sha, y);
    assert k[0] == l[0];
    if |x| > MAX_CARDINALITY_KEY_BYTES && |y| > MAX_CARDINALITY_KEY_BYTES {
      assert k[|DIGEST_PREFIX|..] == Hex(sha(x)) && l[|DIGEST_PREFIX|..] == Hex(sha(y));
      HexInjective(sha(x), sha(y));
    }
  }

  lemma ValueKeyInjective(sha: Sha256, u: Value, v: Value)
    requires CollisionFree(sha, {RawKey(u), RawKey(v)})
    requires ClipToKeyCap(sha, RawKey(u)) == ClipToKeyCap(sha, RawKey(v))
    ensures u == v
  {
    ClipInjective(sha, RawKey(u), RawKey(v));
    RawKeyInjective(u, v);
  }

  lemma TaggedInjective(f: nat, g: nat, k: Bytes, l: Bytes)
    requires f < U32_LIMIT && g < U32_LIMIT && Tagged(f, k) == Tagged(g, l)
    ensures f == g && k == l
  {
    var s, t := Tagged(f, k), Tagged(g, l);
    assert s[1..9] == Hex(BigEndian(f)) && t[1..9] == Hex(BigEndian(g));
    HexInjective(BigEndian(f), BigEndian(g));
    BigEndianInjective(f, g);
    assert s[10..] == k && t[10..] == l;
  }

  lemma {:induction false} CompositeFromFront(parts: seq<Bytes>)
    requires parts != []
    ensures Composite(parts) == Part(parts[0]) + Composite(parts[1..])
    decreases |parts|
  {
    if |parts| == 1 {
      assert parts[..0] == [] && parts[1..] == [];
      assert Composite([]) == [];
    } else {
      var init := parts[..|parts| - 1];
      CompositeFromFront(init);
      assert init[1..] == parts[1..][..|parts| - 2];
      calc {
        Composite(parts);
        Composite(init) + Part(parts[|parts| - 1]);
        Part(parts[0]) + Composite(init[1..]) + Part(parts[|parts| - 1]);
        Part(parts[0]) + (Composite(init[1..]) + Part(parts[|parts| - 1]));
        Part(parts[0]) + Composite(parts[1..]);
      }
    }
  }

  lemma PartInjective(p: Bytes, q: Bytes, x: Bytes, y: Bytes)
    requires Part(p) + x == Part(q) + y
    ensures p == q && x == y
  {
    var l, r := p + [NUL] + x, q + [NUL] + y;
    assert Part(p) + x == Decimal(|p|) + [COLON] + l;
    assert Part(q) + y == Decimal(|q|) + [COLON] + r;
    LengthPrefixInjective(|p|, |q|, l, r);
    assert p == l[..|p|] && q == r[..|q|];
    assert x == l[|p| + 1..] && y == r[|q| + 1..];
  }

  /** Two tuples of parts have the same composite key only if they are the same list, whatever
      bytes the parts contain. */
  lemma {:induction false} CompositeInjective(a: seq<Bytes>, b: seq<Bytes>)
    requires Composite(a) == Composite(b)
    ensures a == b
    decreases |a|
  {
    if a == [] || b == [] {
      if a != [] { CompositeFromFront(a); }
      if b != [] { CompositeFromFront(b); }
    } else {
      CompositeFromFront(a);
      CompositeFromFront(b);
      PartInjective(a[0], b[0], Composite(a[1..]), Composite(b[1..]));
      CompositeInjective(a[1..], b[1..]);
      assert a == [a[0]] + a[1..] && b == [b[0]] + b[1..];
    }
  }

  // ----- What is counted ------------------------------------------------------------------

  /** What a row contributes to the count: itself as one tuple, or one cell per field. */
  datatype Item = Tuple(values: seq<Value>) | Cell(field: nat, value: Value)

  ghost predicate IsItem(i: Item) {
    match i
    case Tuple(values) => values != []
    case Cell(field, _) => field < U32_LIMIT
  }

  function Canonicals(row: Row): (vs: seq<Value>)
    ensures |vs| == |row|
  {
    seq(|row|, i requires 0 <= i < |row| => Canonical(row[i]))
  }

  ghost function RowItems(byRow: bool, row: Row): (items: set<Item>)
    ensures forall i | i in items :: IsItem(i) && (i.Tuple? <==> byRow)
  {
    if byRow then
      if row == [] then {} else {Tuple(Canonicals(row))}
    else set i | 0 <= i < |row| :: Cell(FieldIndex(i), Canonical(row[i]))
  }

  ghost function Items(byRow: bool, rows: seq<Row>): (items: set<Item>)
    ensures forall i | i in items :: IsItem(i) && (i.Tuple? <==> byRow)
  {
    set row, i | row in rows && i in RowItems(byRow, row) :: i
  }

  ghost function PartKeys(sha: Sha256, values: seq<Value>): (ks: seq<Bytes>)
    ensures |ks| == |values|
  {
    seq(|values|, i requires 0 <= i < |values| => ClipToKeyCap(sha, RawKey(values[i])))
  }

  ghost function KeyOf(sha: Sha256, item: Item): Bytes
    requires IsItem(item)
  {
    match item
    case Tuple(values) => ClipToKeyCap(sha, Composite(PartKeys(sha, values)))
    case Cell(field, v) => ClipToKeyCap(sha, Tagged(field, ClipToKeyCap(sha, RawKey(v))))
  }

  /** The strings from which the key of an item is made; those over the key bound are hashed. */
  ghost function Preimages(sha: Sha256, item: Item): set<Bytes>
    requires IsItem(item)
  {
    match item
    case Tuple(values) => {Composite(PartKeys(sha, values))} + set v | v in values :: RawKey(v)
    case Cell(field, v) => {RawKey(v), Tagged(field, ClipToKeyCap(sha, RawKey(v)))}
  }

  ghost function AllPreimages(sha: Sha256, items: set<Item>): set<Bytes>
    requires forall i | i in items :: IsItem(i)
  {
    set i, x | i in items && x in Preimages(sha, i) :: x
  }

  lemma CompositeStartsWithDigit(parts: seq<Bytes>)
    requires parts != []
    ensures Composite(parts) != [] && 48 <= Composite(parts)[0] < 58
  {
    CompositeFromFront(parts);
  }

  lemma TupleKeyInjective(sha: Sha256, us: seq<Value>, vs: seq<Value>)
    requires us != [] && vs != []
    requires CollisionFree(sha, Preimages(sha, Tuple(us)) + Preimages(sha, Tuple(vs)))
    requires KeyOf(sha, Tuple(us)) == KeyOf(sha, Tuple(vs))
    ensures us == vs
  {
    var a, b := PartKeys(sha, us), PartKeys(sha, vs);
    CompositeStartsWithDigit(a);
    CompositeStartsWithDigit(b);
    ClipInjective(sha, Composite(a), Composite(b));
    CompositeInjective(a, b);
    forall i | 0 <= i < |us| ensures us[i] == vs[i] {
      assert a[i] == b[i];
      assert RawKey(us[i]) in Preimages(sha, Tuple(us)) && RawKey(vs[i]) in Preimages(sha, Tuple(vs));
      ValueKeyInjective(sha, us[i], vs[i]);
    }
  }

  /** Keys tell items apart, given that the strings hashed for them do not collide. */
  lemma KeyInjective(sha: Sha256, i: Item, j: Item)
    requires IsItem(i) && IsItem(j) && (i.Tuple? <==> j.Tuple?)
    requires CollisionFree(sha, Preimages(sha, i) + Preimages(sha, j))
    requires KeyOf(sha, i) == KeyOf(sha, j)
    ensures i == j
  {
    if i.Tuple? {
      TupleKeyInjective(sha, i.values, j.values);
    } else {
      var a, b := ClipToKeyCap(sha, RawKey(i.value)), ClipToKeyCap(sha, RawKey(j.value));
      ClipInjective(sha, Tagged(i.field, a), Tagged(j.field, b));
      TaggedInjective(i.field, j.field, a, b);
      ValueKeyInjective(sha, i.value, j.value);
    }
  }

  /** Every stored key respects the per-key bound. */
  lemma KeyLength(sha: Sha256, item: Item)
    requires IsItem(item) && IsDigest(sha)
    ensures |KeyOf(sha, item)| <= MAX_CARDINALITY_KEY_BYTES
  {
  }

  ghost function KeysOf(sha: Sha256, items: set<Item>): set<Bytes>
    requires forall i | i in items :: IsItem(i)
  {
    set i | i in items :: KeyOf(sha, i)
  }

  lemma KeysOfOneMore(sha: Sha256, items: set<Item>, i: Item)
    requires i in items && forall j | j in items :: IsItem(j)
    ensures KeysOf(sha, items) == KeysOf(sha, items - {i}) + {KeyOf(sha, i)}
  {
    assert forall j :: j in items <==> j == i || j in items - {i};
  }

  lemma PreimagesOfFewer(sha: Sha256, items: set<Item>, fewer: set<Item>)
    requires (forall i | i in items :: IsItem(i)) && fewer <= items && CollisionFree(sha, AllPreimages(sha, items))
    ensures CollisionFree(sha, AllPreimages(sha, fewer))
  {
  }

  /** As many keys as items. */
  lemma {:induction false} KeysCount(sha: Sha256, items: set<Item>)
    requires forall i, j | i in items && j in items :: IsItem(i) && (i.Tuple? <==> j.Tuple?)
    requires CollisionFree(sha, AllPreimages(sha, items))
    ensures |KeysOf(sha, items)| == |items|
    decreases |items|
  {
    if items == {} {
      assert KeysOf(sha, items) == {};
    } else {
      var i :| i in items;
      var rest := items - {i};
      PreimagesOfFewer(sha, items, rest);
      KeysCount(sha, rest);
      KeysOfOneMore(sha, items, i);
      KeyIsNew(sha, items, i);
    }
  }

  lemma KeyIsNew(sha: Sha256, items: set<Item>, i: Item)
    requires forall i, j | i in items && j in items :: IsItem(i) && (i.Tuple? <==> j.Tuple?)
    requires CollisionFree(sha, AllPreimages(sha, items)) && i in items
    ensures KeyOf(sha, i) !in KeysOf(sha, items - {i})
  {
    forall j | j in items - {i} ensures KeyOf(sha, j) != KeyOf(sha, i) {
      if KeyOf(sha, j) == KeyOf(sha, i) {
        assert Preimages(sha, i) + Preimages(sha, j) <= AllPreimages(sha, items);
        KeyInjective(sha, i, j);
      }
    }
  }

  // ----- Sums of distinct values ----------------------------------------------------------

  ghost function DistinctInField(rows: seq<Row>, field: nat): set<Value> {
    set row | row in rows && field < |row| :: Canonical(row[field])
  }

  ghost function SumOfDistinct(rows: seq<Row>, width: nat): nat {
    if width == 0 then 0 else SumOfDistinct(rows, width - 1) + |DistinctInField(rows, width - 1)|
  }

  ghost function CellsBelow(rows: seq<Row>, width: nat): set<Item> {
    set row, i | row in rows && 0 <= i < |row| && i < width :: Cell(i, Canonical(row[i]))
  }

  ghost function CellsOf(field: nat, vs: set<Value>): set<Item> {
    set v | v in vs :: Cell(field, v)
  }

  lemma {:induction false} CellCount(field: nat, vs: set<Value>)
    ensures |CellsOf(field, vs)| == |vs|
    decreases |vs|
  {
    if vs == {} {
      assert CellsOf(field, vs) == {};
    } else {
      var v :| v in vs;
      CellCount(field, vs - {v});
      assert CellsOf(field, vs) == CellsOf(field, vs - {v}) + {Cell(field, v)};
    }
  }

  lemma CellsOfOneMore(rows: seq<Row>, field: nat)
    ensures CellsBelow(rows, field + 1) == CellsBelow(rows, field) + CellsOf(field, DistinctInField(rows, field))
    ensures CellsBelow(rows, field) !! CellsOf(field, DistinctInField(rows, field))
  {
    var below, last := CellsBelow(rows, field), CellsOf(field, DistinctInField(rows, field));
    forall c | c in last ensures c in CellsBelow(rows, field + 1) {
      var row :| row in rows && field < |row| && Canonical(row[field]) == c.value;
    }
    forall c | c in CellsBelow(rows, field + 1) ensures c in below + last {
      var row, i: int :| row in rows && 0 <= i < |row| && i < field + 1 && c == Cell(i, Canonical(row[i]));
    }
  }

  lemma {:induction false} CellsBelowCount(rows: seq<Row>, width: nat)
    ensures |CellsBelow(rows, width)| == SumOfDistinct(rows, width)
  {
    if width == 0 {
      assert CellsBelow(rows, 0) == {};
    } else {
      var field := width - 1;
      CellsBelowCount(rows, field);
      CellCount(field, DistinctInField(rows, field));
      CellsOfOneMore(rows, field);
    }
  }

  /** Without byRow the items of rows of at most 2^32 fields number the sum over the fields of the
      distinct values seen in that field. */
  lemma CellItemsAreSumOfDistinct(rows: seq<Row>, width: nat)
    requires width <= U32_LIMIT && forall row | row in rows :: |row| <= width
    ensures |Items(false, rows)| == SumOfDistinct(rows, width)
  {
    CellsBelowCount(rows, width);
    assert Items(false, rows) == CellsBelow(rows, width) by {
      forall c | c in CellsBelow(rows, width) ensures c in Items(false, rows) {
        var row, i: int :| row in rows && 0 <= i < |row| && i < width && c == Cell(i, Canonical(row[i]));
        assert c == Cell(FieldIndex(i), Canonical(row[i]));
        assert c in RowItems(false, row);
      }
    }
  }

  // ----- The bytes of keys, spelled out ----------------------------------------------------------

  /** Absent and null count as one value, and nothing else does. */
  lemma AbsentCountsAsNull(a: Option<Value>, b: Option<Value>)
    ensures Canonical(a) == Canonical(b) <==> a == b || ((a.None? || a.value.Null?) && (b.None? || b.value.Null?))
    ensures a.Some? ==> Canonical(a) == a.value
  {
  }

  /** The code of one of the sixteen lower-case digits. */
  predicate IsHexCode(c: int, d: int) {
    0 <= d < 16 && c == if d < 10 then '0' as int + d else 'a' as int + d - 10
  }

  lemma {:induction false} HexSpelled(b: Bytes, i: nat)
    requires i < |b|
    ensures IsHexCode(Hex(b)[2 * i], b[i] / 16) && IsHexCode(Hex(b)[2 * i + 1], b[i] % 16)
    decreases i
  {
    if i > 0 {
      HexSpelled(b[1..], i - 1);
      assert Hex(b)[2 * i] == Hex(b[1..])[2 * (i - 1)] && Hex(b)[2 * i + 1] == Hex(b[1..])[2 * (i - 1) + 1];
    }
  }

  /** Up to 4096 bytes a key is stored as it is, and from there on as its digest in hexadecimal behind
      the bytes of "…sha256:". */
  predicate StoredAs(sha: Sha256, raw: Bytes, key: Bytes) {
    if |raw| <= 4096 then key == raw
    else
      && |key| == 10 + 2 * |sha(raw)|
      && key[..10] == [226, 128, 166, 115, 104, 97, 50, 53, 54, 58]
      && forall i :: 0 <= i < |sha(raw)| ==>
        IsHexCode(key[10 + 2 * i], sha(raw)[i] / 16) && IsHexCode(key[11 + 2 * i], sha(raw)[i] % 16)
  }

  lemma ClippedIsStoredAs(sha: Sha256, raw: Bytes)
    ensures StoredAs(sha, raw, ClipToKeyCap(sha, raw))
  {
    if |raw| > 4096 {
      var key := ClipToKeyCap(sha, raw);
      forall i | 0 <= i < |sha(raw)|
        ensures IsHexCode(key[10 + 2 * i], sha(raw)[i] / 16) && IsHexCode(key[11 + 2 * i], sha(raw)[i] % 16)
      {
        HexSpelled(sha(raw), i);
      }
    }
  }

  /** The key of a value: "__null__", or the letter of its type, a colon and its text. */
  lemma ValueKeySpelled(sha: Sha256, value: Option<Value>)
    ensures var key := ValueToKey(sha, value);
      match value
      case None => key == [95, 95, 110, 117, 108, 108, 95, 95]
      case Some(Null) => key == [95, 95, 110, 117, 108, 108, 95, 95]
      case Some(Str(text)) => StoredAs(sha, ['s' as int, ':' as int] + text, key)
      case Some(Num(text)) => StoredAs(sha, ['n' as int, ':' as int] + text, key)
      case Some(Bool(true)) => key == [98, 58, 116, 114, 117, 101]
      case Some(Bool(false)) => key == [98, 58, 102, 97, 108, 115, 101]
      case Some(Nested(text)) => StoredAs(sha, ['j' as int, ':' as int] + text, key)
  {
    ValueToKeyIsClippedRawKey(sha, value);
    ClippedIsStoredAs(sha, RawKey(Canonical(value)));
  }

  lemma Nibbles(n: nat)
    ensures n % 256 / 16 == n / 16 % 16 && n % 256 % 16 == n % 16
  {
  }

  lemma Sixteenths(n: nat)
    ensures n / 0x100_0000 / 16 == n / 0x1000_0000
    ensures n / 0x1_0000 / 16 == n / 0x10_0000
    ensures n / 0x100 / 16 == n / 0x1000
  {
  }

  lemma TopByte(n: nat)
    requires n < U32_LIMIT
    ensures n / 0x100_0000 < 256
  {
  }

  lemma BigEndianNibbles(n: nat)
    requires n < U32_LIMIT
    ensures var b := BigEndian(n);
      && b[0] / 16 == n / 0x1000_0000 && b[0] % 16 == n / 0x100_0000 % 16
      && b[1] / 16 == n / 0x10_0000 % 16 && b[1] % 16 == n / 0x1_0000 % 16
      && b[2] / 16 == n / 0x1000 % 16 && b[2] % 16 == n / 0x100 % 16
      && b[3] / 16 == n / 0x10 % 16 && b[3] % 16 == n % 16
  {
    TopByte(n);
    Sixteenths(n);
    Nibbles(n / 0x1_0000);
    Nibbles(n / 0x100);
    Nibbles(n);
  }

  /** A field tag: an f, the eight hexadecimal digits of the index, a colon, and the key. */
  lemma TagSpelled(field: nat, key: Bytes)
    requires field < U32_LIMIT
    ensures var t := Tagged(field, key);
      && |t| == 10 + |key| && t[0] == 'f' as int && t[9] == ':' as int && t[10..] == key
      && IsHexCode(t[1], field / 0x1000_0000) && IsHexCode(t[2], field / 0x100_0000 % 16)
      && IsHexCode(t[3], field / 0x10_0000 % 16) && IsHexCode(t[4], field / 0x1_0000 % 16)
      && IsHexCode(t[5], field / 0x1000 % 16) && IsHexCode(t[6], field / 0x100 % 16)
      && IsHexCode(t[7], field / 0x10 % 16) && IsHexCode(t[8], field % 16)
  {
    var b, t := BigEndian(field), Tagged(field, key);
    assert t[1..9] == Hex(b);
    assert forall i :: 0 <= i < 8 ==> t[1 + i] == t[1..9][i];
    BigEndianNibbles(field);
    HexSpelled(b, 0);
    HexSpelled(b, 1);
    HexSpelled(b, 2);
    HexSpelled(b, 3);
  }

  /** A tuple key: each part behind its length in decimal and a colon, and before a NUL. */
  lemma CompositeSpelled(parts: seq<Bytes>, p: Bytes)
    ensures Composite([]) == []
    ensures Composite(parts + [p]) == Composite(parts) + (Decimal(|p|) + [':' as int] + p + [0])
  {
    assert (parts + [p])[..|parts|] == parts;
  }

  lemma DecimalSpelled(n: nat)
    ensures Decimal(n) == if n < 10 then ['0' as int + n] else Decimal(n / 10) + ['0' as int + n % 10]
  {
    if n >= 10 {
      assert DigitsOf(n) == DigitsOf(n / 10) + [n % 10];
    }
  }
}
