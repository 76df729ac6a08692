/** The wire envelope of an exact-distinct set: its validation, the capped union of two envelopes,
    and the broker's fail-closed merge of arbitrary JSON partials.

    A hash set may be enumerated in any order, so a union and everything built on it is a relation
    between its inputs and any of its possible results. */
module CardinalityEnvelope {
  import opened Common
  import opened CardinalityKeys

  const MAX_CARDINALITY_SET_SIZE: nat := 1_000_000
  /** The key cap plus the bytes of the marker that old producers appended. */
  const MAX_WIRE_VALUE_BYTES: nat := MAX_CARDINALITY_KEY_BYTES + 8

  datatype Json =
    | JNull
    | JBool(b: bool)
    | JUint(n: nat)
    | JNumber(text: Bytes)
    | JString(s: Bytes)
    | JArray(items: seq<Json>)
    | JObject(fields: map<string, Json>)

  /** The UTF-8 bytes of "cardinality_state". */
  const TAG: Bytes := [99, 97, 114, 100, 105, 110, 97, 108, 105, 116, 121, 95, 115, 116, 97, 116, 101]

  datatype State = State(values: seq<Bytes>, saturated: bool, count: nat)

  function SaturatedWithCount(count: nat): State {
    State([], true, count)
  }

  function SaturatingAdd(a: nat, b: nat): nat {
    if a + b < U64_LIMIT then a + b else U64_LIMIT - 1
  }

  ghost function Keys(s: State): set<Bytes> {
    Elements(s.values)
  }

  /** A sequence lists a set when it holds exactly its elements, each once. */
  ghost predicate Lists<T>(xs: seq<T>, s: set<T>) {
    Distinct(xs) && Elements(xs) == s
  }

  ghost function Elements<T>(xs: seq<T>): set<T> {
    set x | x in xs
  }

  lemma ElementsSnoc<T>(xs: seq<T>, x: T)
    ensures Elements(xs + [x]) == Elements(xs) + {x}
  {
    assert x in xs + [x];
  }

  lemma {:induction false} DistinctCount<T>(xs: seq<T>)
    ensures |Elements(xs)| <= |xs|
    ensures Distinct(xs) <==> |Elements(xs)| == |xs|
    decreases |xs|
  {
    if xs == [] {
    } else {
      var init, last := xs[..|xs| - 1], xs[|xs| - 1];
      DistinctCount(init);
      ElementsSnoc(init, last);
      assert xs == init + [last];
      if Distinct(xs) {
        assert Distinct(init) && last !in init;
      } else if Distinct(init) {
        var i, j :| 0 <= i < j < |xs| && xs[i] == xs[j];
        assert init[i] in init;
      }
    }
  }

  // ----- Validation -----------------------------------------------------------------------

  datatype Malformed =
    | SaturatedNotBool | CountNotU64 | ValuesNotArray | OverSetCap | SaturatedWithValues
    | EntryNotString | EntryTooLong | EntryRepeated | CountMismatch

  predicate IsTagged(v: Json) {
    v.JObject? && "@type" in v.fields && v.fields["@type"] == JString(TAG)
  }

  predicate IsU64(v: Json) {
    v.JUint? && v.n < U64_LIMIT
  }

  /** The envelope rules: field types, the set cap, and a count that is the number of distinct keys
      unless the envelope is saturated, in which case it ships no keys. */
  predicate WellFormed(obj: map<string, Json>, setCap: nat) {
    && "saturated" in obj && obj["saturated"].JBool?
    && "count" in obj && IsU64(obj["count"])
    && "values" in obj && obj["values"].JArray?
    && var items := obj["values"].items;
       && |items| <= setCap
       && if obj["saturated"].b then items == []
          else
            && (forall i :: 0 <= i < |items| ==> items[i].JString? && |items[i].s| <= MAX_WIRE_VALUE_BYTES)
            && Distinct(items)
            && obj["count"].n == |items|
  }

  method ValidateTaggedObj(obj: map<string, Json>, setCap: nat) returns (r: Result<(bool, nat), Malformed>)
    ensures r.Ok? <==> WellFormed(obj, setCap)
    ensures r.Ok? ==> r.value == (obj["saturated"].b, obj["count"].n)
  {
    if "saturated" !in obj || !obj["saturated"].JBool? {
      return Err(SaturatedNotBool);
    }
    if "count" !in obj || !IsU64(obj["count"]) {
      return Err(CountNotU64);
    }
    if "values" !in obj || !obj["values"].JArray? {
      return Err(ValuesNotArray);
    }
    var items := obj["values"].items;
    if |items| > setCap {
      return Err(OverSetCap);
    }
    if obj["saturated"].b {
      if items != [] {
        return Err(SaturatedWithValues);
      }
      return Ok((true, obj["count"].n));
    }
    var distinct: set<Bytes> := {};
    for i := 0 to |items|
      invariant forall j :: 0 <= j < i ==> items[j].JString? && |items[j].s| <= MAX_WIRE_VALUE_BYTES
      invariant forall j, k :: 0 <= j < k < i ==> items[j] != items[k]
      invariant forall j :: 0 <= j < i ==> items[j].s in distinct
      invariant forall x | x in distinct :: exists j :: 0 <= j < i && items[j] == JString(x)
      invariant |distinct| == i
    {
      if !items[i].JString? {
        return Err(EntryNotString);
      }
      if |items[i].s| > MAX_WIRE_VALUE_BYTES {
        return Err(EntryTooLong);
      }
      if items[i].s in distinct {
        return Err(EntryRepeated);
      }
      distinct := distinct + {items[i].s};
    }
    if obj["count"].n != |distinct| {
      return Err(CountMismatch);
    }
    return Ok((false, obj["count"].n));
  }

  function Texts(items: seq<Json>): (r: Option<seq<Bytes>>)
    ensures r.Some? <==> forall i :: 0 <= i < |items| ==> items[i].JString?
    ensures r.Some? ==> |r.value| == |items| && forall i :: 0 <= i < |items| ==> items[i] == JString(r.value[i])
  {
    if items == [] then Some([])
    else
      var init := Texts(items[..|items| - 1]);
      if init.Some? && items[|items| - 1].JString? then Some(init.value + [items[|items| - 1].s]) else None
  }

  /** Deserialization of the four fields; unknown fields are ignored. */
  function Deserialize(v: Json): Option<State> {
    if !v.JObject? then None
    else if "@type" !in v.fields || !v.fields["@type"].JString? then None
    else if "saturated" !in v.fields || !v.fields["saturated"].JBool? then None
    else if "count" !in v.fields || !IsU64(v.fields["count"]) then None
    else if "values" !in v.fields || !v.fields["values"].JArray? then None
    else
      var texts := Texts(v.fields["values"].items);
      if texts.None? then None else Some(State(texts.value, v.fields["saturated"].b, v.fields["count"].n))
  }

  datatype Rejection = FailedValidation | FailedDeserialization

  /** None for a value that is not tagged as an envelope, an error for one that is but breaks the
      rules. */
  function FromJson(v: Json): Result<Option<State>, Rejection> {
    if !IsTagged(v) then Ok(None)
    else if !WellFormed(v.fields, MAX_CARDINALITY_SET_SIZE) then Err(FailedValidation)
    else if Deserialize(v).None? then Err(FailedDeserialization)
    else Ok(Deserialize(v))
  }

  function ToJson(s: State): Json {
    JObject(map["@type" := JString(TAG),
                "values" := JArray(seq(|s.values|, i requires 0 <= i < |s.values| => JString(s.values[i]))),
                "saturated" := JBool(s.saturated),
                "count" := JUint(s.count)])
  }

  /** The states that validation lets through. */
  ghost predicate Valid(s: State) {
    && s.count < U64_LIMIT
    && |s.values| <= MAX_CARDINALITY_SET_SIZE
    && if s.saturated then s.values == []
       else
         && (forall v | v in s.values :: |v| <= MAX_WIRE_VALUE_BYTES)
         && Distinct(s.values)
         && s.count == |s.values|
  }

  /** A validated envelope always deserializes, into a state that satisfies the rules. */
  lemma FromJsonValid(v: Json)
    ensures FromJson(v).Err? ==> IsTagged(v) && !WellFormed(v.fields, MAX_CARDINALITY_SET_SIZE)
    ensures FromJson(v).Ok? && FromJson(v).value.Some? ==> Valid(FromJson(v).value.value)
  {
    if IsTagged(v) && WellFormed(v.fields, MAX_CARDINALITY_SET_SIZE) {
      var items := v.fields["values"].items;
      var values := Texts(items).value;
      forall i, j | 0 <= i < j < |values| && !v.fields["saturated"].b ensures values[i] != values[j] {
        assert items[i] != items[j];
      }
    }
  }

  /** Serializing a state that satisfies the rules and validating it again gives the state back. */
  lemma ToJsonRoundTrip(s: State)
    requires Valid(s)
    ensures FromJson(ToJson(s)) == Ok(Some(s))
  {
    var v := ToJson(s);
    var items := v.fields["values"].items;
    assert forall i :: 0 <= i < |items| ==> items[i] == JString(s.values[i]);
    assert WellFormed(v.fields, MAX_CARDINALITY_SET_SIZE);
    assert Texts(items).value == s.values;
  }

  // ----- Union ----------------------------------------------------------------------------

  ghost predicate IsUnion(cap: nat, a: State, b: State, r: State) {
    if a.saturated || b.saturated then r == SaturatedWithCount(SaturatingAdd(a.count, b.count))
    else if b.count == 0 && b.values == [] then r == a
    else if a.count == 0 && a.values == [] then r == b
    else if |Keys(a) + Keys(b)| > cap then r == SaturatedWithCount(cap + 1)
    else Lists(r.values, Keys(a) + Keys(b)) && !r.saturated && r.count == |Keys(a) + Keys(b)|
  }

  method UnionWithCap(a: State, b: State, cap: nat) returns (r: State)
    ensures IsUnion(cap, a, b, r)
  {
    if a.saturated || b.saturated {
      return SaturatedWithCount(SaturatingAdd(a.count, b.count));
    }
    if b.count == 0 && b.values == [] {
      return a;
    }
    if a.count == 0 && a.values == [] {
      return b;
    }
    var all := a.values + b.values;
    var merged: set<Bytes> := {};
    assert Keys(a) + Keys(b) == Elements(all);
    for i := 0 to |all|
      invariant merged == Elements(all[..i])
      invariant |merged| <= cap
    {
      assert all[..i + 1] == all[..i] + [all[i]];
      ElementsSnoc(all[..i], all[i]);
      merged := merged + {all[i]};
      if |merged| > cap {
        SubsetCardinality(merged, Elements(all));
        return SaturatedWithCount(|merged|);
      }
    }
    assert all[..|all|] == all;
    var values := ListSet(merged);
    r := State(values, false, |merged|);
    DistinctCount(values);
  }

  /** Some order of the elements of a set. */
  method ListSet<T(==)>(s: set<T>) returns (xs: seq<T>)
    ensures Lists(xs, s) && |xs| == |s|
  {
    xs := [];
    var todo := s;
    while todo != {}
      invariant todo <= s && Lists(xs, s - todo) && |xs| + |todo| == |s|
      decreases |todo|
    {
      var x :| x in todo;
      assert x !in Elements(xs);
      ElementsSnoc(xs, x);
      todo := todo - {x};
      xs := xs + [x];
    }
  }

  /** Every union of valid states is valid again. */
  lemma UnionValid(cap: nat, a: State, b: State, r: State)
    requires Valid(a) && Valid(b) && IsUnion(cap, a, b, r) && cap <= MAX_CARDINALITY_SET_SIZE
    ensures Valid(r)
  {
    if !r.saturated {
      DistinctCount(r.values);
      forall v | v in r.values ensures |v| <= MAX_WIRE_VALUE_BYTES {
        if r != a && r != b {
          assert v in Keys(a) + Keys(b);
        }
      }
    }
  }

  // ----- The broker's merge ---------------------------------------------------------------

  datatype Side = StateSide(state: State) | CountSide(n: nat) | Poison

  function Classify(v: Json): Side {
    match FromJson(v)
    case Ok(Some(state)) => StateSide(state)
    case Ok(None) => if IsU64(v) then CountSide(v.n) else Poison
    case Err(_) => Poison
  }

  predicate IsExactEmpty(s: State) {
    !s.saturated && s.count == 0 && s.values == []
  }

  /** `out` is a possible result of merging the partials `dst` and `src`. */
  ghost predicate Merges(cap: nat, dst: Json, src: Json, out: Json) {
    match (Classify(dst), Classify(src))
    case (StateSide(d), StateSide(s)) => exists u :: IsUnion(cap, d, s, u) && out == ToJson(u)
    case (StateSide(d), CountSide(n)) =>
      if n == 0 then out == ToJson(d)
      else if IsExactEmpty(d) then out == src
      else exists u :: IsUnion(cap, d, SaturatedWithCount(n), u) && out == ToJson(u)
    case (CountSide(n), StateSide(s)) =>
      if n == 0 then out == ToJson(s)
      else if IsExactEmpty(s) then out == dst
      else exists u :: IsUnion(cap, SaturatedWithCount(n), s, u) && out == ToJson(u)
    case (CountSide(d), CountSide(s)) =>
      if d == 0 then out == src
      else if s == 0 then out == dst
      else out == ToJson(SaturatedWithCount(SaturatingAdd(d, s)))
    case (Poison, Poison) => out == ToJson(SaturatedWithCount(0))
    case (Poison, StateSide(t)) => out == ToJson(SaturatedWithCount(t.count))
    case (StateSide(t), Poison) => out == ToJson(SaturatedWithCount(t.count))
    case (Poison, CountSide(n)) => out == ToJson(SaturatedWithCount(n))
    case (CountSide(n), Poison) => out == ToJson(SaturatedWithCount(n))
  }

  method MergeCardinality(cap: nat, dst: Json, src: Json) returns (out: Json)
    ensures Merges(cap, dst, src, out)
  {
    match (Classify(dst), Classify(src)) {
      case (StateSide(d), StateSide(s)) =>
        var u := UnionWithCap(d, s, cap);
        out := ToJson(u);
      case (StateSide(d), CountSide(n)) =>
        if n == 0 {
          out := ToJson(d);
        } else if IsExactEmpty(d) {
          out := src;
        } else {
          var u := UnionWithCap(d, SaturatedWithCount(n), cap);
          out := ToJson(u);
        }
      case (CountSide(n), StateSide(s)) =>
        if n == 0 {
          out := ToJson(s);
        } else if IsExactEmpty(s) {
          out := dst;
        } else {
          var u := UnionWithCap(SaturatedWithCount(n), s, cap);
          out := ToJson(u);
        }
      case (CountSide(d), CountSide(s)) =>
        if d == 0 {
          out := src;
        } else if s == 0 {
          out := dst;
        } else {
          out := ToJson(SaturatedWithCount(SaturatingAdd(d, s)));
        }
      case (Poison, Poison) => out := ToJson(SaturatedWithCount(0));
      case (Poison, StateSide(t)) => out := ToJson(SaturatedWithCount(t.count));
      case (StateSide(t), Poison) => out := ToJson(SaturatedWithCount(t.count));
      case (Poison, CountSide(n)) => out := ToJson(SaturatedWithCount(n));
      case (CountSide(n), Poison) => out := ToJson(SaturatedWithCount(n));
    }
  }

  // ----- What a partial claims ------------------------------------------------------------

  /** Everything about a partial that matters to whether the merged count can be trusted. */
  datatype Verdict = Bad | Saturated | Bare(n: nat) | Exact(keys: set<Bytes>)

  ghost function VerdictOf(v: Json): Verdict {
    match Classify(v)
    case StateSide(s) => if s.saturated then Saturated else Exact(Keys(s))
    case CountSide(n) => Bare(n)
    case Poison => Bad
  }

  /** The merge, on verdicts. */
  ghost function Combine(cap: nat, x: Verdict, y: Verdict): Verdict {
    match (x, y)
    case (Exact(a), Exact(b)) =>
      if b == {} then x else if a == {} then y else if |a + b| > cap then Saturated else Exact(a + b)
    case (Bare(m), Bare(n)) => if m == 0 then y else if n == 0 then x else Saturated
    case (Exact(a), Bare(n)) => if n == 0 then x else if a == {} then y else Saturated
    case (Bare(n), Exact(a)) => if n == 0 then y else if a == {} then x else Saturated
    case _ => Saturated
  }

  ghost function StateVerdict(s: State): Verdict {
    if s.saturated then Saturated else Exact(Keys(s))
  }

  lemma VerdictOfState(s: State)
    requires Valid(s)
    ensures VerdictOf(ToJson(s)) == StateVerdict(s)
  {
    ToJsonRoundTrip(s);
  }

  lemma ValidKeys(s: State)
    requires Valid(s) && !s.saturated
    ensures s.count == |Keys(s)| && (IsExactEmpty(s) <==> Keys(s) == {})
  {
    DistinctCount(s.values);
    if s.values != [] {
      assert s.values[0] in Keys(s);
    }
  }

  lemma UnionVerdict(cap: nat, a: State, b: State, u: State)
    requires Valid(a) && Valid(b) && IsUnion(cap, a, b, u)
    ensures StateVerdict(u) == Combine(cap, StateVerdict(a), StateVerdict(b))
  {
    if !a.saturated && !b.saturated {
      ValidKeys(a);
      ValidKeys(b);
    }
  }

  lemma MergeVerdictOfStates(cap: nat, dst: Json, src: Json, out: Json)
    requires Merges(cap, dst, src, out) && cap <= MAX_CARDINALITY_SET_SIZE
    requires Classify(dst).StateSide? && Classify(src).StateSide?
    ensures VerdictOf(out) == Combine(cap, VerdictOf(dst), VerdictOf(src))
  {
    FromJsonValid(dst);
    FromJsonValid(src);
    var d, s := Classify(dst).state, Classify(src).state;
    var u :| IsUnion(cap, d, s, u) && out == ToJson(u);
    UnionValid(cap, d, s, u);
    UnionVerdict(cap, d, s, u);
    VerdictOfState(u);
  }

  /** A valid state and a bare count merge alike from either side. */
  lemma MergeVerdictOfStateAndCount(cap: nat, v: Json, d: State, n: nat, out: Json)
    requires Valid(d) && VerdictOf(v) == Bare(n) && n < U64_LIMIT
    requires if n == 0 then out == ToJson(d)
             else if IsExactEmpty(d) then out == v
             else out == ToJson(SaturatedWithCount(SaturatingAdd(d.count, n)))
    ensures VerdictOf(out) == Combine(cap, StateVerdict(d), Bare(n)) == Combine(cap, Bare(n), StateVerdict(d))
  {
    if !d.saturated {
      ValidKeys(d);
    }
    if n == 0 {
      VerdictOfState(d);
    } else if !IsExactEmpty(d) {
      VerdictOfState(SaturatedWithCount(SaturatingAdd(d.count, n)));
    }
  }

  lemma MergeVerdictOfCounts(cap: nat, dst: Json, src: Json, out: Json)
    requires Merges(cap, dst, src, out) && Classify(dst).CountSide? && Classify(src).CountSide?
    ensures VerdictOf(out) == Combine(cap, VerdictOf(dst), VerdictOf(src))
  {
    VerdictOfState(SaturatedWithCount(SaturatingAdd(Classify(dst).n, Classify(src).n)));
  }

  /** A malformed side saturates the result, whatever count it ships. */
  lemma MergeVerdictOfPoison(cap: nat, dst: Json, src: Json, out: Json)
    requires Merges(cap, dst, src, out) && (Classify(dst).Poison? || Classify(src).Poison?)
    ensures VerdictOf(out) == Saturated == Combine(cap, VerdictOf(dst), VerdictOf(src))
  {
    FromJsonValid(dst);
    FromJsonValid(src);
    match (Classify(dst), Classify(src))
    case (Poison, Poison) => VerdictOfState(SaturatedWithCount(0));
    case (Poison, StateSide(t)) => VerdictOfState(SaturatedWithCount(t.count));
    case (StateSide(t), Poison) => VerdictOfState(SaturatedWithCount(t.count));
    case (Poison, CountSide(n)) => VerdictOfState(SaturatedWithCount(n));
    case (CountSide(n), Poison) => VerdictOfState(SaturatedWithCount(n));
  }

  /** The verdict on a merge result is determined by the verdicts on its inputs, whatever the order
      in which the merged set was enumerated; in particular every envelope a merge emits passes
      validation again. */
  lemma MergeVerdict(cap: nat, dst: Json, src: Json, out: Json)
    requires Merges(cap, dst, src, out) && cap <= MAX_CARDINALITY_SET_SIZE
    ensures VerdictOf(out) == Combine(cap, VerdictOf(dst), VerdictOf(src))
  {
    FromJsonValid(dst);
    FromJsonValid(src);
    if Classify(dst).Poison? || Classify(src).Poison? {
      MergeVerdictOfPoison(cap, dst, src, out);
    } else if Classify(dst).CountSide? && Classify(src).CountSide? {
      MergeVerdictOfCounts(cap, dst, src, out);
    } else if Classify(src).CountSide? {
      MergeVerdictOfStateAndCount(cap, src, Classify(dst).state, Classify(src).n, out);
    } else if Classify(dst).CountSide? {
      MergeVerdictOfStateAndCount(cap, dst, Classify(src).state, Classify(dst).n, out);
    } else {
      MergeVerdictOfStates(cap, dst, src, out);
    }
  }

  /** Whatever a merge is given, what it emits is a bare count or an envelope that passes validation again. */
  lemma MergeOutputIsNeverMalformed(cap: nat, dst: Json, src: Json, out: Json)
    requires Merges(cap, dst, src, out) && cap <= MAX_CARDINALITY_SET_SIZE
    ensures FromJson(out).Ok? && !VerdictOf(out).Bad?
  {
    MergeVerdict(cap, dst, src, out);
    assert !Combine(cap, VerdictOf(dst), VerdictOf(src)).Bad?;
  }

  // ----- The envelope, spelled out -----------------------------------------------------------------

  /** The four fields of an envelope. */
  lemma EnvelopeSpelled(s: State)
    ensures var v := ToJson(s);
      && v.JObject? && v.fields.Keys == {"@type", "values", "saturated", "count"}
      && v.fields["@type"] ==
           JString([99, 97, 114, 100, 105, 110, 97, 108, 105, 116, 121, 95, 115, 116, 97, 116, 101])
      && v.fields["saturated"] == JBool(s.saturated) && v.fields["count"] == JUint(s.count)
      && v.fields["values"].JArray? && |v.fields["values"].items| == |s.values|
      && forall i :: 0 <= i < |s.values| ==> v.fields["values"].items[i] == JString(s.values[i])
  {
  }

  /** Which envelopes are accepted, in numbers. */
  lemma AcceptedEnvelopes(s: State)
    ensures FromJson(ToJson(s)) == Ok(Some(s)) <==>
      && s.count < 18446744073709551616 && |s.values| <= 1000000
      && if s.saturated then s.values == []
         else
           && (forall i :: 0 <= i < |s.values| ==> |s.values[i]| <= 4104)
           && (forall i, j :: 0 <= i < j < |s.values| ==> s.values[i] != s.values[j])
           && s.count == |s.values|
    ensures FromJson(ToJson(s)) == Ok(Some(s)) || FromJson(ToJson(s)) == Err(FailedValidation)
  {
    if WellFormed(ToJson(s).fields, MAX_CARDINALITY_SET_SIZE) {
      WellFormedIsValid(s);
    }
    if Valid(s) {
      ToJsonRoundTrip(s);
    }
  }

  lemma WellFormedIsValid(s: State)
    requires WellFormed(ToJson(s).fields, MAX_CARDINALITY_SET_SIZE)
    ensures Valid(s)
  {
    var items := ToJson(s).fields["values"].items;
    assert |items| == |s.values| && forall i :: 0 <= i < |items| ==> items[i] == JString(s.values[i]);
    if !s.saturated {
      forall i, j | 0 <= i < j < |s.values| ensures s.values[i] != s.values[j] {
        assert items[i] != items[j];
      }
      forall x | x in s.values ensures |x| <= MAX_WIRE_VALUE_BYTES {
        var i :| 0 <= i < |s.values| && s.values[i] == x;
        assert |items[i].s| <= MAX_WIRE_VALUE_BYTES;
      }
    }
  }

  /** A tagged object: an object whose "@type" says "cardinality_state". */
  predicate SaysCardinality(v: Json) {
    && v.JObject? && "@type" in v.fields && v.fields["@type"].JString?
    && v.fields["@type"].s == [99, 97, 114, 100, 105, 110, 97, 108, 105, 116, 121, 95, 115, 116, 97, 116, 101]
  }

  /** Its fields obey the rules, in numbers. */
  predicate ObeysRules(fields: map<string, Json>) {
    && "saturated" in fields && fields["saturated"].JBool?
    && "count" in fields && fields["count"].JUint? && fields["count"].n < 18446744073709551616
    && "values" in fields && fields["values"].JArray? && |fields["values"].items| <= 1000000
    && var items := fields["values"].items;
       if fields["saturated"].b then items == []
       else
         && (forall i :: 0 <= i < |items| ==> items[i].JString? && |items[i].s| <= 4104)
         && (forall i, j :: 0 <= i < j < |items| ==> items[i].s != items[j].s)
         && fields["count"].n == |items|
  }

  lemma RulesSpelled(fields: map<string, Json>)
    ensures WellFormed(fields, MAX_CARDINALITY_SET_SIZE) <==> ObeysRules(fields)
  {
    if "values" in fields && fields["values"].JArray? {
      var items := fields["values"].items;
      if forall i :: 0 <= i < |items| ==> items[i].JString? {
        assert forall i, j :: 0 <= i < j < |items| ==> (items[i] != items[j] <==> items[i].s != items[j].s);
      }
    }
  }

  ghost function Strings(items: seq<Json>): set<Bytes> {
    set i | 0 <= i < |items| && items[i].JString? :: items[i].s
  }

  /** What any JSON value claims: a tagged object that breaks a rule and any value that is neither tagged
      nor a 64-bit count are malformed, never a count of zero. */
  lemma WhatIsClaimed(v: Json)
    ensures VerdictOf(v) ==
            if SaysCardinality(v) then
              if !ObeysRules(v.fields) then Bad
              else if v.fields["saturated"].b then Saturated
              else Exact(Strings(v.fields["values"].items))
            else if v.JUint? && v.n < 18446744073709551616 then Bare(v.n)
            else Bad
  {
    if SaysCardinality(v) {
      assert IsTagged(v);
      RulesSpelled(v.fields);
      if ObeysRules(v.fields) {
        DeserializedStrings(v);
      }
    }
  }

  lemma DeserializedStrings(v: Json)
    requires IsTagged(v) && WellFormed(v.fields, MAX_CARDINALITY_SET_SIZE)
    ensures var s := Deserialize(v);
      s.Some? && s.value.saturated == v.fields["saturated"].b && Keys(s.value) == Strings(v.fields["values"].items)
  {
    var items := v.fields["values"].items;
    var texts := Texts(items);
    assert texts.Some?;
    forall x | x in Strings(items) ensures x in Elements(texts.value) {
      var i :| 0 <= i < |items| && items[i].JString? && items[i].s == x;
      assert texts.value[i] == x;
    }
    forall x | x in Elements(texts.value) ensures x in Strings(items) {
      var i :| 0 <= i < |texts.value| && texts.value[i] == x;
      assert items[i] == JString(x);
    }
  }

  /** The count that a partial states, nothing if it is malformed. */
  function Stated(v: Json): nat {
    match Classify(v)
    case StateSide(s) => s.count
    case CountSide(n) => n
    case Poison => 0
  }

  function BoundedSum(a: nat, b: nat): nat { if a + b <= 18446744073709551615 then a + b else 18446744073709551615 }

  lemma StatedByEnvelope(s: State)
    requires Valid(s)
    ensures Stated(ToJson(s)) == s.count
  {
    ToJsonRoundTrip(s);
  }

  lemma UnionCount(cap: nat, a: State, b: State, u: State)
    requires Valid(a) && Valid(b) && IsUnion(cap, a, b, u)
    ensures u.count == if a.saturated || b.saturated then BoundedSum(a.count, b.count)
                       else if |Keys(a) + Keys(b)| <= cap || a.values == [] || b.values == [] then |Keys(a) + Keys(b)|
                       else cap + 1
  {
    if !a.saturated && !b.saturated {
      ValidKeys(a);
      ValidKeys(b);
      assert b.values == [] ==> Keys(a) + Keys(b) == Keys(a);
      assert a.values == [] ==> Keys(a) + Keys(b) == Keys(b);
    }
  }

  /** The count that a merge states: of two sets the size of their union, or one over the cap when it is
      over the cap; and otherwise the sum of what its inputs state, as far as 64 bits go. */
  lemma MergedCount(cap: nat, dst: Json, src: Json, out: Json)
    requires Merges(cap, dst, src, out) && cap <= MAX_CARDINALITY_SET_SIZE
    ensures Stated(out) ==
      match (VerdictOf(dst), VerdictOf(src))
      case (Exact(a), Exact(b)) => if |a + b| <= cap || a == {} || b == {} then |a + b| else cap + 1
      case _ => BoundedSum(Stated(dst), Stated(src))
  {
    FromJsonValid(dst);
    FromJsonValid(src);
    if Classify(dst).Poison? || Classify(src).Poison? {
      MergedCountOfPoison(cap, dst, src, out);
    } else {
      match (Classify(dst), Classify(src))
      case (StateSide(d), StateSide(s)) => MergedCountOfStates(cap, dst, src, out);
      case (StateSide(d), CountSide(n)) => MergedCountOfStateAndCount(d, n, src, out);
      case (CountSide(n), StateSide(s)) => MergedCountOfStateAndCount(s, n, dst, out);
      case (CountSide(d), CountSide(s)) => StatedByEnvelope(SaturatedWithCount(SaturatingAdd(d, s)));
    }
  }

  lemma MergedCountOfPoison(cap: nat, dst: Json, src: Json, out: Json)
    requires Merges(cap, dst, src, out) && (Classify(dst).Poison? || Classify(src).Poison?)
    ensures Stated(out) == BoundedSum(Stated(dst), Stated(src))
  {
    FromJsonValid(dst);
    FromJsonValid(src);
    match (Classify(dst), Classify(src))
    case (Poison, Poison) => StatedByEnvelope(SaturatedWithCount(0));
    case (Poison, StateSide(t)) => StatedByEnvelope(SaturatedWithCount(t.count));
    case (StateSide(t), Poison) => StatedByEnvelope(SaturatedWithCount(t.count));
    case (Poison, CountSide(n)) => StatedByEnvelope(SaturatedWithCount(n));
    case (CountSide(n), Poison) => StatedByEnvelope(SaturatedWithCount(n));
  }

  lemma MergedCountOfStates(cap: nat, dst: Json, src: Json, out: Json)
    requires Merges(cap, dst, src, out) && cap <= MAX_CARDINALITY_SET_SIZE
    requires Classify(dst).StateSide? && Classify(src).StateSide?
    ensures var d, s := Classify(dst).state, Classify(src).state;
      Stated(out) ==
        if d.saturated || s.saturated then BoundedSum(d.count, s.count)
        else if |Keys(d) + Keys(s)| <= cap || Keys(d) == {} || Keys(s) == {} then |Keys(d) + Keys(s)|
        else cap + 1
  {
    FromJsonValid(dst);
    FromJsonValid(src);
    var d, s := Classify(dst).state, Classify(src).state;
    var u :| IsUnion(cap, d, s, u) && out == ToJson(u);
    UnionValid(cap, d, s, u);
    UnionCount(cap, d, s, u);
    StatedByEnvelope(u);
    if !d.saturated { ValidKeys(d); }
    if !s.saturated { ValidKeys(s); }
  }

  lemma MergedCountOfStateAndCount(d: State, n: nat, bare: Json, out: Json)
    requires Valid(d) && Classify(bare) == CountSide(n) && n < U64_LIMIT
    requires if n == 0 then out == ToJson(d)
             else if IsExactEmpty(d) then out == bare
             else out == ToJson(SaturatedWithCount(SaturatingAdd(d.count, n)))
    ensures Stated(out) == BoundedSum(d.count, n)
  {
    if n == 0 {
      StatedByEnvelope(d);
    } else if !IsExactEmpty(d) {
      StatedByEnvelope(SaturatedWithCount(SaturatingAdd(d.count, n)));
    }
  }
}
