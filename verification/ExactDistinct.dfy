/** Exact COUNT(DISTINCT) across shards, end to end: rows to keys to per-shard envelopes to a tree of
    broker merges, with malformed, saturated and bare-count partials anywhere in the tree. */
module ExactDistinct {
  import opened Common
  import opened CardinalityKeys
  import opened CardinalityEnvelope
  import opened CardinalityAggregator

  /** What one query fixes for all of its shards. */
  datatype Query = Query(sha: Sha256, cap: nat, byRow: bool)

  ghost predicate Legal(q: Query) {
    IsDigest(q.sha) && 1 <= q.cap <= MAX_CARDINALITY_SET_SIZE
  }

  // ----- One shard ------------------------------------------------------------------------

  ghost function AllKeys(q: Query, rows: seq<Row>): seq<Bytes> {
    if rows == [] then []
    else AllKeys(q, rows[..|rows| - 1]) + RowKeys(q.sha, q.byRow, [], rows[|rows| - 1])
  }

  lemma {:induction false} OfferAllConcat(cap: nat, e: Exactness, ks: seq<Bytes>, ls: seq<Bytes>)
    ensures OfferAll(cap, e, ks + ls) == OfferAll(cap, OfferAll(cap, e, ks), ls)
    decreases |ls|
  {
    if ls == [] {
      assert ks + ls == ks;
    } else {
      var init, last := ls[..|ls| - 1], ls[|ls| - 1];
      OfferAllConcat(cap, e, ks, init);
      OfferAllSnoc(cap, e, ks + init, last);
      assert ks + ls == ks + init + [last];
    }
  }

  /** `j` is a partial that a shard holding `rows` may emit. */
  ghost predicate IsShardPartial(q: Query, rows: seq<Row>, j: Json) {
    exists s :: IsStateOf(OfferAll(q.cap, Exactness({}, false), AllKeys(q, rows)), s) && j == ToJson(s)
  }

  method ShardPartial(q: Query, rows: seq<Row>) returns (j: Json)
    ensures IsShardPartial(q, rows, j)
  {
    var agg := new Aggregator(q.byRow, q.cap);
    for i := 0 to |rows|
      invariant agg.Valid() && agg.rowParts == []
      invariant agg.Exact() == OfferAll(q.cap, Exactness({}, false), AllKeys(q, rows[..i]))
      modifies agg
    {
      assert rows[..i + 1][..i] == rows[..i];
      OfferAllConcat(q.cap, Exactness({}, false), AllKeys(q, rows[..i]), RowKeys(q.sha, q.byRow, [], rows[i]));
      agg.AggregateRowValues(q.sha, rows[i]);
    }
    assert rows[..|rows|] == rows;
    var s := agg.IntoState();
    j := ToJson(s);
  }

  lemma RowKeysAreItemKeys(q: Query, row: Row)
    ensures Elements(RowKeys(q.sha, q.byRow, [], row)) == KeysOf(q.sha, RowItems(q.byRow, row))
  {
    if q.byRow {
      if row != [] {
        TupleKey(q.sha, row);
        assert RowItems(true, row) == {Tuple(Canonicals(row))};
      }
    } else {
      CellRowKeys(q.sha, row);
    }
  }

  lemma TupleKey(sha: Sha256, row: Row)
    requires row != []
    ensures RowKeys(sha, true, [], row) == [KeyOf(sha, Tuple(Canonicals(row)))]
  {
    assert [] + RowParts(sha, row, |row|) == PartKeys(sha, Canonicals(row)) by {
      forall i | 0 <= i < |row| ensures RowParts(sha, row, |row|)[i] == PartKeys(sha, Canonicals(row))[i] {
        ValueToKeyIsClippedRawKey(sha, row[i]);
      }
    }
  }

  lemma CellRowKeys(sha: Sha256, row: Row)
    ensures Elements(RowKeys(sha, false, [], row)) == KeysOf(sha, RowItems(false, row))
  {
    var ks := CellKeys(sha, row, |row|);
    forall i | 0 <= i < |row|
      ensures Cell(FieldIndex(i), Canonical(row[i])) in RowItems(false, row)
              && ks[i] == KeyOf(sha, Cell(FieldIndex(i), Canonical(row[i])))
    {
      ValueToKeyIsClippedRawKey(sha, row[i]);
    }
    forall c | c in RowItems(false, row) ensures KeyOf(sha, c) in ks {
      var i :| 0 <= i < |row| && c == Cell(FieldIndex(i), Canonical(row[i]));
      assert ks[i] == KeyOf(sha, c);
    }
  }

  lemma ItemsConcat(byRow: bool, rows: seq<Row>, more: seq<Row>)
    ensures Items(byRow, rows + more) == Items(byRow, rows) + Items(byRow, more)
  {
  }

  lemma KeysOfUnion(sha: Sha256, a: set<Item>, b: set<Item>)
    requires forall i | i in a + b :: IsItem(i)
    ensures KeysOf(sha, a + b) == KeysOf(sha, a) + KeysOf(sha, b)
  {
  }

  lemma {:induction false} AllKeysAreItemKeys(q: Query, rows: seq<Row>)
    ensures Elements(AllKeys(q, rows)) == KeysOf(q.sha, Items(q.byRow, rows))
    decreases |rows|
  {
    if rows == [] {
      assert Items(q.byRow, rows) == {};
    } else {
      var init, last := rows[..|rows| - 1], rows[|rows| - 1];
      AllKeysAreItemKeys(q, init);
      RowKeysAreItemKeys(q, last);
      assert rows == init + [last];
      ItemsConcat(q.byRow, init, [last]);
      assert Items(q.byRow, [last]) == RowItems(q.byRow, last);
      KeysOfUnion(q.sha, Items(q.byRow, init), Items(q.byRow, [last]));
      var ks, ls := AllKeys(q, init), RowKeys(q.sha, q.byRow, [], last);
      assert Elements(ks + ls) == Elements(ks) + Elements(ls);
    }
  }

  ghost function RowsVerdict(q: Query, rows: seq<Row>): Verdict {
    var keys := KeysOf(q.sha, Items(q.byRow, rows));
    if |keys| <= q.cap then Exact(keys) else Saturated
  }

  lemma ShardStateValid(q: Query, rows: seq<Row>, s: State)
    requires Legal(q) && |s.values| <= MAX_CARDINALITY_SET_SIZE
    requires !s.saturated && Lists(s.values, KeysOf(q.sha, Items(q.byRow, rows))) && s.count == |Elements(s.values)|
    ensures Valid(s)
  {
    DistinctCount(s.values);
    forall v | v in s.values ensures |v| <= MAX_WIRE_VALUE_BYTES {
      assert v in Elements(s.values);
      var i :| i in Items(q.byRow, rows) && KeyOf(q.sha, i) == v;
      KeyLength(q.sha, i);
    }
  }

  lemma ShardStateVerdict(q: Query, rows: seq<Row>, s: State)
    requires Legal(q) && IsStateOf(OfferAll(q.cap, Exactness({}, false), AllKeys(q, rows)), s)
    ensures Valid(s) && StateVerdict(s) == RowsVerdict(q, rows)
  {
    ShardOffers(q, rows);
    if !s.saturated {
      DistinctCount(s.values);
      ShardStateValid(q, rows, s);
    }
  }

  lemma ShardOffers(q: Query, rows: seq<Row>)
    ensures var e := OfferAll(q.cap, Exactness({}, false), AllKeys(q, rows));
      var keys := KeysOf(q.sha, Items(q.byRow, rows));
      && |e.seen| <= q.cap && (!e.saturated <==> |keys| <= q.cap) && (!e.saturated ==> e.seen == keys)
  {
    var keys := AllKeys(q, rows);
    OfferAllMeaning(q.cap, Exactness({}, false), keys);
    AllKeysAreItemKeys(q, rows);
    assert {} + Elements(keys) == Elements(keys);
  }

  /** A shard's partial is valid on the wire and says exactly what the shard's rows are. */
  lemma ShardVerdict(q: Query, rows: seq<Row>, j: Json)
    requires Legal(q) && IsShardPartial(q, rows, j)
    ensures VerdictOf(j) == RowsVerdict(q, rows)
  {
    var s :| IsStateOf(OfferAll(q.cap, Exactness({}, false), AllKeys(q, rows)), s) && j == ToJson(s);
    ShardStateVerdict(q, rows, s);
    VerdictOfState(s);
  }

  // ----- Trees of merges ------------------------------------------------------------------

  /** A partial entering the broker: what a shard emits for its rows, or any JSON at all. */
  datatype Partial = Shard(rows: seq<Row>) | Wire(json: Json)

  datatype Tree = Leaf(partial: Partial) | Node(left: Tree, right: Tree)

  ghost predicate Arrives(q: Query, p: Partial, j: Json) {
    match p
    case Shard(rows) => IsShardPartial(q, rows, j)
    case Wire(json) => j == json
  }

  /** `out` is a possible outcome of the merge tree. */
  ghost predicate Yields(q: Query, t: Tree, out: Json) {
    match t
    case Leaf(p) => Arrives(q, p, out)
    case Node(l, r) => exists a, b :: Yields(q, l, a) && Yields(q, r, b) && Merges(q.cap, a, b, out)
  }

  ghost function Claim(q: Query, p: Partial): Verdict {
    match p
    case Shard(rows) => RowsVerdict(q, rows)
    case Wire(json) => VerdictOf(json)
  }

  ghost function TreeVerdict(q: Query, t: Tree): Verdict {
    match t
    case Leaf(p) => Claim(q, p)
    case Node(l, r) => Combine(q.cap, TreeVerdict(q, l), TreeVerdict(q, r))
  }

  lemma {:induction false} YieldsVerdict(q: Query, t: Tree, out: Json)
    requires Legal(q) && Yields(q, t, out)
    ensures VerdictOf(out) == TreeVerdict(q, t)
  {
    match t
    case Leaf(Shard(rows)) => ShardVerdict(q, rows, out);
    case Leaf(Wire(_)) =>
    case Node(l, r) =>
      var a, b :| Yields(q, l, a) && Yields(q, r, b) && Merges(q.cap, a, b, out);
      YieldsVerdict(q, l, a);
      YieldsVerdict(q, r, b);
      MergeVerdict(q.cap, a, b, out);
  }

  function Leaves(t: Tree): (ps: seq<Partial>)
    ensures ps != []
  {
    match t
    case Leaf(p) => [p]
    case Node(l, r) => Leaves(l) + Leaves(r)
  }

  /** Exact partials and bare zeros are the ones that do not spoil a merge. */
  predicate Harmless(v: Verdict) {
    v.Exact? || v == Bare(0)
  }

  ghost function KeysIn(v: Verdict): set<Bytes> {
    if v.Exact? then v.keys else {}
  }

  lemma CombineHarmless(cap: nat, x: Verdict, y: Verdict)
    requires Harmless(Combine(cap, x, y))
    ensures Harmless(x) && Harmless(y)
    ensures KeysIn(Combine(cap, x, y)) == KeysIn(x) + KeysIn(y)
    ensures Combine(cap, x, y).Exact? <==> x.Exact? || y.Exact?
  {
  }

  ghost function ClaimedKeys(q: Query, ps: seq<Partial>): set<Bytes> {
    set p, k | p in ps && k in KeysIn(Claim(q, p)) :: k
  }

  lemma ClaimedKeysConcat(q: Query, ps: seq<Partial>, qs: seq<Partial>)
    ensures ClaimedKeys(q, ps + qs) == ClaimedKeys(q, ps) + ClaimedKeys(q, qs)
  {
  }

  lemma ClaimedKeysOfOne(q: Query, p: Partial)
    ensures ClaimedKeys(q, [p]) == KeysIn(Claim(q, p))
  {
  }

  /** A tree that ends harmless had nothing but harmless leaves, and ends with all their keys. */
  lemma {:induction false} HarmlessTree(q: Query, t: Tree)
    requires Harmless(TreeVerdict(q, t))
    ensures forall p | p in Leaves(t) :: Harmless(Claim(q, p))
    ensures KeysIn(TreeVerdict(q, t)) == ClaimedKeys(q, Leaves(t))
  {
    match t
    case Leaf(p) =>
      ClaimedKeysOfOne(q, p);
    case Node(l, r) =>
      CombineHarmless(q.cap, TreeVerdict(q, l), TreeVerdict(q, r));
      HarmlessTree(q, l);
      HarmlessTree(q, r);
      ClaimedKeysConcat(q, Leaves(l), Leaves(r));
  }

  function RowsOf(ps: seq<Partial>): seq<Row> {
    if ps == [] then []
    else RowsOf(ps[..|ps| - 1]) + if ps[|ps| - 1].Shard? then ps[|ps| - 1].rows else []
  }

  /** Partials that did not come from a shard are broken, saturated, bare counts or zeros. */
  ghost predicate StrangersCarryNoKeys(q: Query, ps: seq<Partial>) {
    forall p | p in ps && p.Wire? && Claim(q, p).Exact? :: Claim(q, p).keys == {}
  }

  lemma {:induction false} ClaimedKeysOfRows(q: Query, ps: seq<Partial>)
    requires StrangersCarryNoKeys(q, ps) && forall p | p in ps :: Harmless(Claim(q, p))
    ensures ClaimedKeys(q, ps) == KeysOf(q.sha, Items(q.byRow, RowsOf(ps)))
    decreases |ps|
  {
    if ps == [] {
      assert Items(q.byRow, RowsOf(ps)) == {};
    } else {
      var init, last := ps[..|ps| - 1], ps[|ps| - 1];
      assert ps == init + [last];
      assert last in ps;
      ClaimedKeysOfRows(q, init);
      ClaimedKeysConcat(q, init, [last]);
      var more := if last.Shard? then last.rows else [];
      ItemsConcat(q.byRow, RowsOf(init), more);
      KeysOfUnion(q.sha, Items(q.byRow, RowsOf(init)), Items(q.byRow, more));
      ClaimedKeysOfOne(q, last);
      assert Items(q.byRow, []) == {};
    }
  }

  // ----- Main results ---------------------------------------------------------------------

  /** Whatever the sharding, the merge tree and the bad leaves: an unsaturated envelope at the root
      carries the exact number of distinct items of all the rows, and every leaf was a valid
      unsaturated envelope or a zero. */
  lemma ExactAnswerIsRight(q: Query, t: Tree, out: Json, s: State)
    requires Legal(q) && Yields(q, t, out)
    requires StrangersCarryNoKeys(q, Leaves(t))
    requires FromJson(out) == Ok(Some(s)) && !s.saturated
    requires CollisionFree(q.sha, AllPreimages(q.sha, Items(q.byRow, RowsOf(Leaves(t)))))
    ensures forall p | p in Leaves(t) :: Harmless(Claim(q, p))
    ensures s.count == |Items(q.byRow, RowsOf(Leaves(t)))|
  {
    YieldsVerdict(q, t, out);
    FromJsonValid(out);
    ValidKeys(s);
    HarmlessTree(q, t);
    ClaimedKeysOfRows(q, Leaves(t));
    KeysCount(q.sha, Items(q.byRow, RowsOf(Leaves(t))));
  }

  /** The same, spelled out for the two counting modes. */
  lemma ExactAnswerCounts(q: Query, t: Tree, out: Json, s: State, width: nat)
    requires Legal(q) && Yields(q, t, out)
    requires StrangersCarryNoKeys(q, Leaves(t))
    requires FromJson(out) == Ok(Some(s)) && !s.saturated
    requires CollisionFree(q.sha, AllPreimages(q.sha, Items(q.byRow, RowsOf(Leaves(t)))))
    requires width <= U32_LIMIT && forall row | row in RowsOf(Leaves(t)) :: |row| <= width
    ensures var rows := RowsOf(Leaves(t));
            s.count == if q.byRow then |set row | row in rows && row != [] :: Canonicals(row)|
                       else SumOfDistinct(rows, width)
  {
    ExactAnswerIsRight(q, t, out, s);
    var rows := RowsOf(Leaves(t));
    if q.byRow {
      TupleItemsAreDistinctRows(rows);
    } else {
      CellItemsAreSumOfDistinct(rows, width);
    }
  }

  lemma TupleItemsAreDistinctRows(rows: seq<Row>)
    ensures |Items(true, rows)| == |set row | row in rows && row != [] :: Canonicals(row)|
  {
    var tuples := set row | row in rows && row != [] :: Canonicals(row);
    TupleCount(tuples);
    var items := set vs | vs in tuples :: Tuple(vs);
    forall i | i in Items(true, rows) ensures i in items {
      var row :| row in rows && i in RowItems(true, row);
      assert i.values in tuples;
    }
    forall row | row in rows && row != [] ensures Tuple(Canonicals(row)) in Items(true, rows) {
      assert Tuple(Canonicals(row)) in RowItems(true, row);
    }
    assert Items(true, rows) == items;
  }

  lemma {:induction false} TupleCount(tuples: set<seq<Value>>)
    ensures |set vs | vs in tuples :: Tuple(vs)| == |tuples|
    decreases |tuples|
  {
    var items := set vs | vs in tuples :: Tuple(vs);
    if tuples == {} {
      assert items == {};
    } else {
      var vs :| vs in tuples;
      TupleCount(tuples - {vs});
      assert items == (set us | us in tuples - {vs} :: Tuple(us)) + {Tuple(vs)};
    }
  }

  // ----- Order and bracketing do not matter -----------------------------------------------

  ghost predicate InCap(cap: nat, v: Verdict) {
    v.Exact? ==> |v.keys| <= cap
  }

  /** A broken partial counts as saturated as soon as it is merged with anything. */
  ghost function Settled(v: Verdict): Verdict {
    if v.Bad? then Saturated else v
  }

  lemma CombineCommutes(cap: nat, x: Verdict, y: Verdict)
    ensures Combine(cap, x, y) == Combine(cap, y, x)
  {
    if x.Exact? && y.Exact? {
      assert x.keys + y.keys == y.keys + x.keys;
    }
  }

  lemma CombineInCap(cap: nat, x: Verdict, y: Verdict)
    requires InCap(cap, x) && InCap(cap, y)
    ensures InCap(cap, Combine(cap, x, y)) && !Combine(cap, x, y).Bad?
    ensures x.Exact? && y.Exact? ==>
              Combine(cap, x, y) == if |x.keys + y.keys| > cap then Saturated else Exact(x.keys + y.keys)
  {
    if x.Exact? && y.Exact? {
      if y.keys == {} {
        assert x.keys + y.keys == x.keys;
      } else if x.keys == {} {
        assert x.keys + y.keys == y.keys;
      }
    }
  }

  lemma CombineAssociatesExact(cap: nat, x: Verdict, y: Verdict, z: Verdict)
    requires InCap(cap, x) && InCap(cap, y) && InCap(cap, z)
    requires x.Exact? && y.Exact? && z.Exact?
    ensures Combine(cap, Combine(cap, x, y), z) == Combine(cap, x, Combine(cap, y, z))
  {
    CombineInCap(cap, x, y);
    CombineInCap(cap, y, z);
    var a, b, c := x.keys, y.keys, z.keys;
    SubsetCardinality(a + b, a + b + c);
    SubsetCardinality(b + c, a + b + c);
    assert a + (b + c) == a + b + c;
    if |a + b| <= cap { CombineInCap(cap, Exact(a + b), z); }
    if |b + c| <= cap { CombineInCap(cap, x, Exact(b + c)); }
  }

  lemma CombineNeutral(cap: nat, x: Verdict, y: Verdict)
    requires InCap(cap, x) && InCap(cap, y) && (x == Bare(0) || y == Bare(0))
    ensures Combine(cap, x, y) == if x == Bare(0) then Settled(y) else Settled(x)
  {
  }

  lemma CombineSettled(cap: nat, x: Verdict, y: Verdict)
    ensures Combine(cap, Settled(x), y) == Combine(cap, x, y) == Combine(cap, x, Settled(y))
    ensures Settled(Combine(cap, x, y)) == Combine(cap, x, y)
  {
  }

  lemma CombineAssociatesZero(cap: nat, x: Verdict, y: Verdict, z: Verdict)
    requires InCap(cap, x) && InCap(cap, y) && InCap(cap, z)
    requires x == Bare(0) || y == Bare(0) || z == Bare(0)
    ensures Combine(cap, Combine(cap, x, y), z) == Combine(cap, x, Combine(cap, y, z))
  {
    CombineInCap(cap, x, y);
    CombineInCap(cap, y, z);
    if x == Bare(0) {
      CombineNeutral(cap, x, y);
      CombineSettled(cap, y, z);
      CombineNeutral(cap, x, Combine(cap, y, z));
    } else if y == Bare(0) {
      CombineNeutral(cap, x, y);
      CombineNeutral(cap, y, z);
      CombineSettled(cap, x, z);
    } else {
      CombineNeutral(cap, y, z);
      CombineSettled(cap, x, y);
      CombineNeutral(cap, Combine(cap, x, y), z);
    }
  }

  lemma CombineAbsorbs(cap: nat, v: Verdict)
    ensures Combine(cap, Saturated, v) == Combine(cap, v, Saturated) == Saturated
    ensures Combine(cap, Bad, v) == Combine(cap, v, Bad) == Saturated
  {
  }

  /** A nonzero bare count survives exact empty sets and nothing else. */
  lemma CombineWithCount(cap: nat, n: nat, v: Verdict)
    requires n > 0 && v != Bare(0)
    ensures Combine(cap, Bare(n), v) == Combine(cap, v, Bare(n)) == if v == Exact({}) then Bare(n) else Saturated
  {
  }

  lemma CombineExactEmpty(cap: nat, x: Verdict, y: Verdict)
    requires x.Exact? && y.Exact?
    ensures Combine(cap, x, y) == Exact({}) <==> x == Exact({}) && y == Exact({})
    ensures Combine(cap, x, y) != Bare(0)
  {
    EmptyUnion(x, y);
  }

  lemma CombineAssociatesMixed(cap: nat, x: Verdict, y: Verdict, z: Verdict)
    requires x != Bare(0) && y != Bare(0) && z != Bare(0) && !(x.Exact? && y.Exact? && z.Exact?)
    ensures Combine(cap, Combine(cap, x, y), z) == Combine(cap, x, Combine(cap, y, z))
  {
    if x.Bad? || x.Saturated? || y.Bad? || y.Saturated? || z.Bad? || z.Saturated? {
      CombineAbsorbs(cap, x);
      CombineAbsorbs(cap, y);
      CombineAbsorbs(cap, z);
      CombineAbsorbs(cap, Combine(cap, x, y));
      CombineAbsorbs(cap, Combine(cap, y, z));
    } else if y.Bare? {
      CombineWithCount(cap, y.n, x);
      CombineWithCount(cap, y.n, z);
      CombineAbsorbs(cap, x);
      CombineAbsorbs(cap, z);
    } else if x.Bare? {
      CombineAssociatesCountFirst(cap, x, y, z);
    } else {
      CombineAssociatesCountFirst(cap, z, y, x);
      CombineCommutes(cap, x, y);
      CombineCommutes(cap, y, z);
      CombineCommutes(cap, Combine(cap, x, y), z);
      CombineCommutes(cap, x, Combine(cap, y, z));
    }
  }

  lemma CombineAssociatesCountFirst(cap: nat, x: Verdict, y: Verdict, z: Verdict)
    requires x.Bare? && x != Bare(0) && y.Exact? && (z.Exact? || (z.Bare? && z != Bare(0)))
    ensures Combine(cap, Combine(cap, x, y), z) == Combine(cap, x, Combine(cap, y, z))
  {
    CombineWithCount(cap, x.n, y);
    CombineWithCount(cap, x.n, z);
    CombineAbsorbs(cap, x);
    CombineAbsorbs(cap, z);
    if z.Exact? {
      CombineExactEmpty(cap, y, z);
      CombineWithCount(cap, x.n, Combine(cap, y, z));
    } else {
      CombineWithCount(cap, z.n, y);
      CombineWithCount(cap, x.n, Combine(cap, y, z));
    }
  }

  lemma CombineAssociates(cap: nat, x: Verdict, y: Verdict, z: Verdict)
    requires InCap(cap, x) && InCap(cap, y) && InCap(cap, z)
    ensures Combine(cap, Combine(cap, x, y), z) == Combine(cap, x, Combine(cap, y, z))
  {
    if x.Exact? && y.Exact? && z.Exact? {
      CombineAssociatesExact(cap, x, y, z);
    } else if x == Bare(0) || y == Bare(0) || z == Bare(0) {
      CombineAssociatesZero(cap, x, y, z);
    } else {
      CombineAssociatesMixed(cap, x, y, z);
    }
  }

  lemma EmptyUnion(x: Verdict, y: Verdict)
    requires x.Exact? && y.Exact?
    ensures x.keys + y.keys == {} <==> x.keys == {} && y.keys == {}
  {
    assert x.keys <= x.keys + y.keys && y.keys <= x.keys + y.keys;
  }

  /** The verdict on a list of partials, merged from the right. */
  ghost function Total(q: Query, ps: seq<Partial>): Verdict {
    if ps == [] then Bare(0) else Combine(q.cap, Settled(Claim(q, ps[0])), Total(q, ps[1..]))
  }

  ghost predicate AllInCap(q: Query, ps: seq<Partial>) {
    forall p | p in ps :: InCap(q.cap, Claim(q, p))
  }

  lemma {:induction false} TotalInCap(q: Query, ps: seq<Partial>)
    requires AllInCap(q, ps)
    ensures InCap(q.cap, Total(q, ps)) && !Total(q, ps).Bad?
    decreases |ps|
  {
    if ps != [] {
      TotalInCap(q, ps[1..]);
      CombineInCap(q.cap, Settled(Claim(q, ps[0])), Total(q, ps[1..]));
    }
  }

  lemma {:induction false} TotalConcat(q: Query, ps: seq<Partial>, qs: seq<Partial>)
    requires AllInCap(q, ps) && AllInCap(q, qs)
    ensures Total(q, ps + qs) == Combine(q.cap, Total(q, ps), Total(q, qs))
    decreases |ps|
  {
    TotalInCap(q, qs);
    if ps == [] {
      assert ps + qs == qs;
    } else {
      assert (ps + qs)[1..] == ps[1..] + qs;
      TotalConcat(q, ps[1..], qs);
      TotalInCap(q, ps[1..]);
      CombineAssociates(q.cap, Settled(Claim(q, ps[0])), Total(q, ps[1..]), Total(q, qs));
    }
  }

  lemma TotalOfOne(q: Query, p: Partial)
    requires InCap(q.cap, Claim(q, p))
    ensures Total(q, [p]) == Settled(Claim(q, p))
  {
    assert Total(q, [p][1..]) == Bare(0);
    CombineNeutral(q.cap, Settled(Claim(q, p)), Bare(0));
  }

  lemma {:induction false} TreeVerdictIsTotal(q: Query, t: Tree)
    requires AllInCap(q, Leaves(t))
    ensures Settled(TreeVerdict(q, t)) == Total(q, Leaves(t))
    ensures t.Node? ==> TreeVerdict(q, t) == Total(q, Leaves(t))
  {
    match t
    case Leaf(p) =>
      TotalOfOne(q, p);
    case Node(l, r) =>
      assert AllInCap(q, Leaves(l)) && AllInCap(q, Leaves(r));
      TreeVerdictIsTotal(q, l);
      TreeVerdictIsTotal(q, r);
      TotalConcat(q, Leaves(l), Leaves(r));
      CombineSettled(q.cap, TreeVerdict(q, l), TreeVerdict(q, r));
      CombineSettled(q.cap, TreeVerdict(q, l), Settled(TreeVerdict(q, r)));
  }

  /** Moving one partial to the front does not change the total. */
  lemma TotalMoveToFront(q: Query, ps: seq<Partial>, i: nat)
    requires AllInCap(q, ps) && i < |ps|
    ensures Total(q, ps) == Total(q, [ps[i]] + (ps[..i] + ps[i + 1..]))
  {
    var a, b := ps[..i], ps[i + 1..];
    var x := [ps[i]];
    assert ps == a + (x + b) && x + (a + b) == (x + a) + b;
    TotalConcat(q, a, x + b);
    TotalConcat(q, x, b);
    TotalConcat(q, x, a + b);
    TotalConcat(q, a, b);
    TotalInCap(q, a);
    TotalInCap(q, x);
    TotalInCap(q, b);
    CombineAssociates(q.cap, Total(q, a), Total(q, x), Total(q, b));
    CombineCommutes(q.cap, Total(q, a), Total(q, x));
    CombineAssociates(q.cap, Total(q, x), Total(q, a), Total(q, b));
  }

  lemma {:induction false} TotalDependsOnMultiset(q: Query, ps: seq<Partial>, qs: seq<Partial>)
    requires AllInCap(q, ps) && multiset(ps) == multiset(qs)
    ensures Total(q, ps) == Total(q, qs)
    decreases |ps|
  {
    if ps == [] {
      assert |multiset(qs)| == 0;
    } else {
      var p, rest := ps[0], ps[1..];
      assert ps == [p] + rest;
      var i := PickFromPermutation(ps, qs);
      var others := qs[..i] + qs[i + 1..];
      assert AllInCap(q, qs) by {
        forall x | x in qs ensures InCap(q.cap, Claim(q, x)) { assert x in multiset(ps); }
      }
      TotalDependsOnMultiset(q, rest, others);
      TotalMoveToFront(q, qs, i);
      assert ([p] + others)[1..] == others;
    }
  }

  /** For two or more leaves within the set cap the verdict at the root, and the exact set when it
      is exact, depend only on which partials came in, not on the shape of the tree, the order of
      the leaves or the enumeration of any set along the way. */
  lemma MergeIgnoresOrderAndBracketing(q: Query, t: Tree, t': Tree, out: Json, out': Json)
    requires Legal(q) && t.Node? && t'.Node?
    requires AllInCap(q, Leaves(t)) && multiset(Leaves(t)) == multiset(Leaves(t'))
    requires Yields(q, t, out) && Yields(q, t', out')
    ensures VerdictOf(out) == VerdictOf(out')
  {
    YieldsVerdict(q, t, out);
    YieldsVerdict(q, t', out');
    assert AllInCap(q, Leaves(t')) by {
      forall x | x in Leaves(t') ensures InCap(q.cap, Claim(q, x)) { assert x in multiset(Leaves(t)); }
    }
    TreeVerdictIsTotal(q, t);
    TreeVerdictIsTotal(q, t');
    TotalDependsOnMultiset(q, Leaves(t), Leaves(t'));
  }

  lemma CombineHarmlessIff(cap: nat, x: Verdict, y: Verdict)
    requires InCap(cap, x) && InCap(cap, y)
    ensures Harmless(Combine(cap, x, y)) <==> Harmless(x) && Harmless(y) && |KeysIn(x) + KeysIn(y)| <= cap
  {
    assert KeysIn(x) == {} ==> KeysIn(x) + KeysIn(y) == KeysIn(y);
    assert KeysIn(y) == {} ==> KeysIn(x) + KeysIn(y) == KeysIn(x);
  }

  lemma {:induction false} TotalHarmlessIff(q: Query, ps: seq<Partial>)
    requires AllInCap(q, ps)
    ensures Harmless(Total(q, ps)) <==> (forall p | p in ps :: Harmless(Claim(q, p))) && |ClaimedKeys(q, ps)| <= q.cap
    ensures Harmless(Total(q, ps)) ==> KeysIn(Total(q, ps)) == ClaimedKeys(q, ps)
    ensures Harmless(Total(q, ps)) ==> (Total(q, ps).Exact? <==> exists p :: p in ps && Claim(q, p).Exact?)
    decreases |ps|
  {
    if ps == [] {
    } else {
      var p, rest := ps[0], ps[1..];
      var x, y := Settled(Claim(q, p)), Total(q, rest);
      assert ps == [p] + rest;
      assert forall r :: r in ps <==> r == p || r in rest;
      TotalHarmlessIff(q, rest);
      TotalInCap(q, rest);
      ClaimedKeysConcat(q, [p], rest);
      ClaimedKeysOfOne(q, p);
      SubsetCardinality(ClaimedKeys(q, rest), ClaimedKeys(q, ps));
      CombineHarmlessIff(q.cap, x, y);
      if Harmless(Total(q, ps)) {
        CombineHarmless(q.cap, x, y);
      }
    }
  }

  /** The root is an unsaturated envelope exactly when every leaf is exact or a bare zero, some leaf
      is an envelope and all their keys together fit the cap. */
  lemma ExactIffAllExactAndFits(q: Query, t: Tree, out: Json)
    requires Legal(q) && t.Node? && AllInCap(q, Leaves(t)) && Yields(q, t, out)
    ensures VerdictOf(out).Exact? <==>
            && (forall p | p in Leaves(t) :: Harmless(Claim(q, p)))
            && (exists p :: p in Leaves(t) && Claim(q, p).Exact?)
            && |ClaimedKeys(q, Leaves(t))| <= q.cap
  {
    YieldsVerdict(q, t, out);
    TreeVerdictIsTotal(q, t);
    TotalHarmlessIff(q, Leaves(t));
  }
}
