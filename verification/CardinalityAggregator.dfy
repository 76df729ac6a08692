/** The per-shard exact-distinct aggregator: the capped key set it fills in place, its envelope and
    its hydration from a peer's envelope. */
module CardinalityAggregator {
  import opened Common
  import opened CardinalityKeys
  import opened CardinalityEnvelope

  /** The set and the flag that says a key was refused. */
  datatype Exactness = Exactness(seen: set<Bytes>, saturated: bool)

  function Offer(cap: nat, e: Exactness, key: Bytes): Exactness {
    if key in e.seen then e
    else if |e.seen| >= cap then e.(saturated := true)
    else e.(seen := e.seen + {key})
  }

  function OfferAll(cap: nat, e: Exactness, keys: seq<Bytes>): Exactness {
    if keys == [] then e else Offer(cap, OfferAll(cap, e, keys[..|keys| - 1]), keys[|keys| - 1])
  }

  ghost predicate Within(cap: nat, e: Exactness) {
    |e.seen| <= cap
  }

  /** Offering keys one by one, in any order and with any repetition, ends unsaturated exactly when
      it started so and all keys fit; then the set is the union, and otherwise part of it. */
  lemma {:induction false} OfferAllMeaning(cap: nat, e: Exactness, keys: seq<Bytes>)
    requires Within(cap, e)
    ensures var r := OfferAll(cap, e, keys);
            && Within(cap, r)
            && e.seen <= r.seen <= e.seen + Elements(keys)
            && (!r.saturated <==> !e.saturated && |e.seen + Elements(keys)| <= cap)
            && (r.saturated && !e.saturated ==> |r.seen| == cap)
            && (!r.saturated ==> r.seen == e.seen + Elements(keys))
    decreases |keys|
  {
    if keys == [] {
      assert e.seen + Elements(keys) == e.seen;
    } else {
      var init, last := keys[..|keys| - 1], keys[|keys| - 1];
      assert keys == init + [last];
      OfferAllMeaning(cap, e, init);
      ElementsSnoc(init, last);
      var r := OfferAll(cap, e, init);
      OfferLast(cap, e.seen + Elements(init), r, last);
      assert e.seen + Elements(keys) == e.seen + Elements(init) + {last};
    }
  }

  lemma OfferLast(cap: nat, all: set<Bytes>, r: Exactness, key: Bytes)
    requires Within(cap, r) && r.seen <= all
    ensures var r' := Offer(cap, r, key);
            && r.seen <= r'.seen <= all + {key} && Within(cap, r')
            && (r.seen == all ==> (r.saturated != r'.saturated ==> |all + {key}| > cap && |r'.seen| == cap))
            && (r.seen == all && !r'.saturated ==> r'.seen == all + {key} && |all + {key}| <= cap)
            && (|all| > cap ==> |all + {key}| > cap)
  {
    SubsetCardinality(all, all + {key});
    if key in all {
      assert all + {key} == all;
    }
  }

  /** The keys that feeding the parts of one row adds, given the parts already pending. */
  function RowKeys(sha: Sha256, byRow: bool, pending: seq<Bytes>, row: Row): seq<Bytes> {
    if byRow then
      var parts := pending + RowParts(sha, row, |row|);
      if parts == [] then [] else [ClipToKeyCap(sha, Composite(parts))]
    else CellKeys(sha, row, |row|)
  }

  function RowParts(sha: Sha256, row: Row, n: nat): (ps: seq<Bytes>)
    requires n <= |row|
    ensures |ps| == n
  {
    seq(n, i requires 0 <= i < n => ValueToKey(sha, row[i]))
  }

  function CellKey(sha: Sha256, i: nat, value: Option<Value>): Bytes {
    ClipToKeyCap(sha, Tagged(FieldIndex(i), ValueToKey(sha, value)))
  }

  function CellKeyOf(sha: Sha256, row: Row): nat -> Bytes {
    (i: nat) => if i < |row| then CellKey(sha, i, row[i]) else []
  }

  /** The keys of the first n cells. */
  function CellKeys(sha: Sha256, row: Row, n: nat): (ks: seq<Bytes>)
    requires n <= |row|
    ensures |ks| == n
  {
    Tabulate(CellKeyOf(sha, row), n)
  }

  lemma CellKeysSnoc(sha: Sha256, row: Row, n: nat)
    requires n < |row|
    ensures CellKeys(sha, row, n + 1) == CellKeys(sha, row, n) + [CellKey(sha, n, row[n])]
  {
    TabulateSnoc(CellKeyOf(sha, row), n);
  }

  lemma RowPartsSnoc(sha: Sha256, row: Row, n: nat)
    requires n < |row|
    ensures RowParts(sha, row, n + 1) == RowParts(sha, row, n) + [ValueToKey(sha, row[n])]
  {
  }

  lemma OfferAllSnoc(cap: nat, e: Exactness, keys: seq<Bytes>, key: Bytes)
    ensures OfferAll(cap, e, keys + [key]) == Offer(cap, OfferAll(cap, e, keys), key)
  {
    assert (keys + [key])[..|keys|] == keys;
  }

  /** A full set that is known to be short of keys stays as it is. */
  lemma {:induction false} FullStaysFull(cap: nat, e: Exactness, keys: seq<Bytes>, more: seq<Bytes>)
    requires OfferAll(cap, e, keys).saturated && |OfferAll(cap, e, keys).seen| >= cap
    ensures OfferAll(cap, e, keys + more) == OfferAll(cap, e, keys)
    decreases |more|
  {
    if more == [] {
      assert keys + more == keys;
    } else {
      var init, last := more[..|more| - 1], more[|more| - 1];
      assert keys + more == (keys + init) + [last];
      FullStaysFull(cap, e, keys, init);
      OfferAllSnoc(cap, e, keys + init, last);
    }
  }

  lemma SentinelsStayOut(cap: nat, e: Exactness, sentinel: nat -> Bytes, i: nat, n: nat)
    requires i <= n
    requires var r := OfferAll(cap, e, Tabulate(sentinel, i)); r.saturated && |r.seen| >= cap
    ensures OfferAll(cap, e, Tabulate(sentinel, n)) == OfferAll(cap, e, Tabulate(sentinel, i))
  {
    var keys := Tabulate(sentinel, n);
    assert keys == keys[..i] + keys[i..] && keys[..i] == Tabulate(sentinel, i);
    FullStaysFull(cap, e, keys[..i], keys[i..]);
  }

  /** The other side of a merge: a filter passes on the aggregator it wraps, and of a foreign one only
      its count is known, if it has one. */
  datatype Donor = Counting(aggregator: Aggregator) | Filtered(inner: Donor) | Foreign(count: Option<nat>)

  function Unwrapped(donor: Donor): (d: Donor)
    ensures !d.Filtered?
  {
    if donor.Filtered? then Unwrapped(donor.inner) else donor
  }

  lemma OfferNext(cap: nat, e: Exactness, keys: seq<Bytes>, i: nat)
    requires i < |keys|
    ensures OfferAll(cap, e, keys[..i + 1]) == Offer(cap, OfferAll(cap, e, keys[..i]), keys[i])
  {
    assert keys[..i + 1][..i] == keys[..i];
  }

  /** The keys of one set were offered to another in some order, and a saturated giver saturates. */
  ghost predicate IsMergeOf(cap: nat, before: Exactness, other: Exactness, after: Exactness) {
    exists keys :: Lists(keys, other.seen) &&
      var e := OfferAll(cap, before, keys); after == e.(saturated := e.saturated || other.saturated)
  }

  class Aggregator {
    var seen: set<Bytes>
    const byRow: bool
    var rowParts: seq<Bytes>
    var saturated: bool
    const cap: nat

    ghost predicate Valid()
      reads this
    {
      |seen| <= cap && (!byRow ==> rowParts == [])
    }

    ghost function Exact(): Exactness
      reads this
    {
      Exactness(seen, saturated)
    }

    constructor (byRow: bool, cap: nat)
      ensures Valid() && this.byRow == byRow && this.cap == cap
      ensures Exact() == Exactness({}, false) && rowParts == []
    {
      this.byRow := byRow;
      this.cap := cap;
      seen, rowParts, saturated := {}, [], false;
    }

    method TryInsert(key: Bytes)
      requires Valid()
      modifies `seen, `saturated
      ensures Valid() && Exact() == Offer(cap, old(Exact()), key)
    {
      if key in seen {
        return;
      }
      if |seen| >= cap {
        saturated := true;
        return;
      }
      seen := seen + {key};
    }

    method AggregateFieldAt(sha: Sha256, field: nat, value: Option<Value>)
      requires Valid() && field < U32_LIMIT
      modifies `seen, `saturated, `rowParts
      ensures Valid()
      ensures byRow ==> rowParts == old(rowParts) + [ValueToKey(sha, value)] && Exact() == old(Exact())
      ensures !byRow ==> rowParts == old(rowParts)
                         && Exact() ==
                            Offer(cap, old(Exact()), ClipToKeyCap(sha, Tagged(field, ValueToKey(sha, value))))
    {
      var raw := ValueToKey(sha, value);
      if byRow {
        rowParts := rowParts + [raw];
      } else {
        TryInsert(ClipToKeyCap(sha, Tagged(field, raw)));
      }
    }

    method FinishRow(sha: Sha256)
      requires Valid()
      modifies `seen, `saturated, `rowParts
      ensures Valid() && (byRow ==> rowParts == []) && (!byRow ==> rowParts == old(rowParts))
      ensures Exact() == if byRow && old(rowParts) != []
                         then Offer(cap, old(Exact()), ClipToKeyCap(sha, Composite(old(rowParts)))) else old(Exact())
    {
      if byRow && rowParts != [] {
        var composite: Bytes := [];
        for i := 0 to |rowParts|
          invariant composite == Composite(rowParts[..i])
        {
          composite := composite + (Decimal(|rowParts[i]|) + [COLON] + rowParts[i] + [NUL]);
          assert rowParts[..i + 1][..i] == rowParts[..i];
        }
        assert rowParts[..|rowParts|] == rowParts;
        TryInsert(ClipToKeyCap(sha, composite));
        rowParts := [];
      }
    }

    method AggregateRowValues(sha: Sha256, row: Row)
      requires Valid()
      modifies `seen, `saturated, `rowParts
      ensures Valid() && rowParts == []
      ensures Exact() == OfferAll(cap, old(Exact()), RowKeys(sha, byRow, old(rowParts), row))
    {
      for i := 0 to |row|
        invariant Valid()
        invariant byRow ==> rowParts == old(rowParts) + RowParts(sha, row, i) && Exact() == old(Exact())
        invariant !byRow ==> Exact() == OfferAll(cap, old(Exact()), CellKeys(sha, row, i))
      {
        RowPartsSnoc(sha, row, i);
        CellKeysSnoc(sha, row, i);
        OfferAllSnoc(cap, old(Exact()), CellKeys(sha, row, i), CellKey(sha, i, row[i]));
        AggregateFieldAt(sha, FieldIndex(i), row[i]);
      }
      if byRow {
        ghost var parts := rowParts;
        FinishRow(sha);
        if parts != [] {
          OfferAllSnoc(cap, old(Exact()), [], ClipToKeyCap(sha, Composite(parts)));
        }
      }
    }

    /** Merge with another aggregator of this kind, whose set is visited in any order. */
    method Merge(other: Aggregator)
      requires Valid() && other.Valid()
      modifies `seen, `saturated
      ensures Valid()
      ensures IsMergeOf(cap, old(Exact()), old(other.Exact()), Exact())
    {
      var keys := ListSet(other.seen);
      var donorSaturated := other.saturated;
      for i := 0 to |keys|
        invariant Valid()
        invariant Exact() == OfferAll(cap, old(Exact()), keys[..i])
      {
        TryInsert(keys[i]);
        OfferNext(cap, old(Exact()), keys, i);
      }
      assert keys[..|keys|] == keys;
      if donorSaturated {
        saturated := true;
      }
    }

    /** Merge with whatever the other side is. Filters are looked through; of a foreign aggregator only
        the count is known, which is fatal to exactness unless it is zero. */
    method MergeFrom(donor: Donor, sentinel: nat -> Bytes)
      requires Valid() && (Unwrapped(donor).Counting? ==> Unwrapped(donor).aggregator.Valid())
      modifies `seen, `saturated
      ensures Valid()
      ensures match Unwrapped(donor)
              case Counting(other) => IsMergeOf(cap, old(Exact()), old(other.Exact()), Exact())
              case Foreign(count) =>
                Exact() == OfferAll(cap, Exactness(old(seen), old(saturated) || count != Some(0)),
                                    Tabulate(sentinel, if count.Some? then count.value else 0))
    {
      match donor
      case Counting(other) => Merge(other);
      case Filtered(inner) => MergeFrom(inner, sentinel);
      case Foreign(None) => saturated := true;
      case Foreign(Some(n)) =>
        if n > 0 {
          saturated := true;
          AddSentinels(n, sentinel);
        }
    }

    /** Stands in for the unknown keys of a foreign aggregator, up to the cap. */
    method AddSentinels(n: nat, sentinel: nat -> Bytes)
      requires Valid() && saturated
      modifies `seen, `saturated
      ensures Valid() && Exact() == OfferAll(cap, old(Exact()), Tabulate(sentinel, n))
    {
      for i := 0 to n
        invariant Valid() && saturated
        invariant Exact() == OfferAll(cap, old(Exact()), Tabulate(sentinel, i))
      {
        if |seen| >= cap {
          SentinelsStayOut(cap, old(Exact()), sentinel, i, n);
          return;
        }
        TryInsert(sentinel(i));
        TabulateSnoc(sentinel, i);
        OfferAllSnoc(cap, old(Exact()), Tabulate(sentinel, i), sentinel(i));
      }
    }

    method IntoState() returns (s: State)
      ensures IsStateOf(Exact(), s)
      ensures s.count == |seen| && s.saturated == saturated
      ensures if saturated then s.values == [] else Lists(s.values, seen)
    {
      if saturated {
        return SaturatedWithCount(|seen|);
      }
      var values := ListSet(seen);
      return State(values, false, |seen|);
    }
  }

  /** `s` is an envelope of the aggregator's contents; the keys may come in any order. */
  ghost predicate IsStateOf(e: Exactness, s: State) {
    if e.saturated then s == SaturatedWithCount(|e.seen|)
    else Lists(s.values, e.seen) && !s.saturated && s.count == |e.seen|
  }

  /** Hydration of a possibly hostile state. */
  method FromStateWithCap(state: State, cap: nat) returns (seen: set<Bytes>, saturated: bool)
    ensures !saturated <==> !state.saturated && |Keys(state)| <= cap && state.count == |Keys(state)|
    ensures !saturated ==> seen == Keys(state)
    ensures seen <= Keys(state) && |seen| <= cap
  {
    seen, saturated := {}, state.saturated;
    for i := 0 to |state.values|
      invariant seen <= Elements(state.values[..i]) && |seen| <= cap
      invariant seen == Elements(state.values[..i]) || (|seen| == cap && saturated)
      invariant !saturated ==> !state.saturated
      invariant saturated && !state.saturated ==> |Elements(state.values[..i])| > cap
    {
      var v := state.values[i];
      ElementsSnoc(state.values[..i], v);
      assert state.values[..i + 1] == state.values[..i] + [v];
      SubsetCardinality(Elements(state.values[..i]), Elements(state.values[..i + 1]));
      if |seen| >= cap {
        if v !in seen {
          saturated := true;
          SubsetCardinality(seen + {v}, Elements(state.values[..i + 1]));
        }
      } else {
        seen := seen + {v};
      }
    }
    assert state.values[..|state.values|] == state.values;
    if !saturated && state.count != |seen| {
      saturated := true;
    }
  }

  /** Merging two aggregators of one cap and shipping the result, and shipping both and merging on
      the wire, agree on whether the count is exact and on the set when it is. */
  lemma TypedMergeAgreesWithWireMerge(cap: nat, a: Exactness, b: Exactness, keys: seq<Bytes>, s: State, t: State,
                                      u: State)
    requires Within(cap, a) && Within(cap, b)
    requires Lists(keys, b.seen) && IsStateOf(a, s) && IsStateOf(b, t) && IsUnion(cap, s, t, u)
    ensures var merged := OfferAll(cap, a, keys);
            && (u.saturated <==> merged.saturated || b.saturated)
            && (!u.saturated ==> Keys(u) == merged.seen)
  {
    OfferAllMeaning(cap, a, keys);
    if !a.saturated && !b.saturated {
      assert Keys(s) == a.seen && Keys(t) == b.seen;
      if t.values == [] {
        assert b.seen == {};
        assert a.seen + b.seen == a.seen;
      } else if s.values == [] {
        assert a.seen == {};
        assert a.seen + b.seen == b.seen;
      }
    }
  }
}
