/** The identity of a segment, its validation, and the identifier it is stored under. */
module SegmentIdentity {

  import opened Common
  import opened Decimals
  import opened Paths

  datatype IdentityError = BadInterval | BadPartition | EmptyVersion | BrokenDescriptor | Incomplete
    | UnsafeDataSource | UnsafeId

  // ----- Partition numbers ----------------------------------------------------------------

  predicate AllDigits(s: string) { forall i :: 0 <= i < |s| ==> '0' <= s[i] <= '9' }

  function DigitsIn(s: string): seq<Digit>
    requires AllDigits(s)
  {
    seq(|s|, i requires 0 <= i < |s| => (s[i] - '0') as nat)
  }

  function Value(s: string): nat
    requires AllDigits(s)
  {
    Val(DigitsIn(s))
  }

  function Show(n: nat): (s: string)
    ensures |s| >= 1 && AllDigits(s)
  {
    seq(|DigitsOf(n)|, i requires 0 <= i < |DigitsOf(n)| => '0' + DigitsOf(n)[i] as char)
  }

  function NormalizePartition(s: string): Result<string, IdentityError> {
    if s == "" || !AllDigits(s) then Err(BadPartition)
    else if Value(s) >= U64_LIMIT then Err(BadPartition)
    else Ok(Show(Value(s)))
  }

  lemma ShowValue(n: nat)
    ensures Value(Show(n)) == n
  {
    assert DigitsIn(Show(n)) == DigitsOf(n);
    ValDigits(n);
  }

  /** Two spellings normalize to the same text exactly when they name the same number, and the text
      of a number normalizes to itself. */
  lemma NormalizedIffSameValue(a: string, b: string)
    requires NormalizePartition(a).Ok? && NormalizePartition(b).Ok?
    ensures NormalizePartition(a) == NormalizePartition(b) <==> Value(a) == Value(b)
    ensures NormalizePartition(NormalizePartition(a).value) == NormalizePartition(a)
  {
    ShowValue(Value(a));
    ShowValue(Value(b));
  }

  /** A normalized partition has no leading zero. */
  lemma NoLeadingZero(s: string)
    requires NormalizePartition(s).Ok? && Value(s) > 0
    ensures NormalizePartition(s).value[0] != '0'
  {
    assert DigitsOf(Value(s))[0] != 0;
  }

  // ----- Intervals ------------------------------------------------------------------------

  /** `instant` reads one ISO-8601 bound as a point in time. */
  function SplitInterval(instant: string -> Option<int>, interval: string): Result<(string, string), IdentityError> {
    var parts := Split(interval, if '/' in interval then '/' else '_');
    if |parts| != 2 || parts[0] == "" || parts[1] == "" then Err(BadInterval)
    else
      var start, end := instant(parts[0]), instant(parts[1]);
      if start.None? || end.None? || start.value >= end.value then Err(BadInterval)
      else Ok((parts[0], parts[1]))
  }

  /** Both encodings of a pair of bounds are read alike: as that pair, exactly when its bounds are
      instants in order. */
  lemma SplitIntervalReadsBothForms(instant: string -> Option<int>, start: string, end: string)
    requires start != "" && end != ""
    requires '/' !in start + end && '_' !in start + end
    ensures var ordered := instant(start).Some? && instant(end).Some? && instant(start).value < instant(end).value;
      var expected := if ordered then Ok((start, end)) else Err(BadInterval);
      SplitInterval(instant, start + "/" + end) == expected == SplitInterval(instant, start + "_" + end)
  {
    assert forall c :: c in start || c in end ==> c in start + end;
    SplitPair(start, end, '/');
    SplitPair(start, end, '_');
    assert (start + "/" + end)[|start|] == '/';
    assert '/' !in start + "_" + end;
  }

  /** An accepted interval names two instants in order, and is their join. */
  lemma SplitIntervalSound(instant: string -> Option<int>, interval: string)
    requires SplitInterval(instant, interval).Ok?
    ensures var (start, end) := SplitInterval(instant, interval).value;
      && instant(start).Some? && instant(end).Some? && instant(start).value < instant(end).value
      && interval in [start + "/" + end, start + "_" + end]
  {
    var sep := if '/' in interval then '/' else '_';
    JoinSplit(interval, sep);
    var parts := Split(interval, sep);
    assert parts == [parts[0], parts[1]] && parts[1..] == [parts[1]];
  }

  // ----- Structured identity ----------------------------------------------------------------

  datatype SegmentIdent = SegmentIdent(dataSource: string, start: string, end: string, version: string,
                                       partition: string)

  function FerroId(i: SegmentIdent): string {
    i.dataSource + "_" + i.start + "_" + i.end + "_" + i.version + "_" + i.partition
  }

  /** Equal ids with four equal fields force the fifth. */
  lemma SameIdAndColumns(a: SegmentIdent, b: SegmentIdent)
    requires FerroId(a) == FerroId(b)
    requires a.dataSource == b.dataSource && a.start == b.start && a.end == b.end && a.version == b.version
    ensures a == b
  {
    var head := a.dataSource + "_" + a.start + "_" + a.end + "_" + a.version + "_";
    assert FerroId(a)[|head|..] == a.partition;
    assert FerroId(b)[|head|..] == b.partition;
  }

  /** What an artifact's descriptor or path says of it. */
  datatype Identity = Identity(descriptorBroken: bool, dataSource: Option<string>, interval: Option<string>,
                               version: Option<string>, partition: Option<string>)

  predicate SafeComponent(s: string) {
    s != "" && s != "." && s != ".." && '/' !in s && '\\' !in s && '\0' !in s
  }

  function Identify(instant: string -> Option<int>, i: Identity): Result<SegmentIdent, IdentityError> {
    if i.descriptorBroken then Err(BrokenDescriptor)
    else if i.dataSource.None? || i.interval.None? || i.version.None? || i.partition.None? then Err(Incomplete)
    else
      var interval := SplitInterval(instant, i.interval.value);
      if interval.Err? then Err(interval.error)
      else
        var partition := NormalizePartition(i.partition.value);
        if partition.Err? then Err(partition.error)
        else if i.version.value == "" then Err(EmptyVersion)
        else
          var ident := SegmentIdent(i.dataSource.value, interval.value.0, interval.value.1, i.version.value,
                                    partition.value);
          if !SafeComponent(ident.dataSource) then Err(UnsafeDataSource)
          else if !SafeComponent(FerroId(ident)) then Err(UnsafeId)
          else Ok(ident)
  }

  /** What every stored identity should be: instants in order, a version, a partition in normal form,
      and a data source and an id fit to be path components. */
  predicate Validated(instant: string -> Option<int>, a: SegmentIdent) {
    && a.start != "" && a.end != "" && instant(a.start).Some? && instant(a.end).Some?
    && instant(a.start).value < instant(a.end).value
    && a.version != "" && NormalizePartition(a.partition) == Ok(a.partition)
    && SafeComponent(a.dataSource) && SafeComponent(FerroId(a))
  }

  /** How the tool itself writes an identity. */
  function Written(a: SegmentIdent): Identity {
    Identity(false, Some(a.dataSource), Some(a.start + "/" + a.end), Some(a.version), Some(a.partition))
  }

  /** Exactly the validated identities can be identified, each from its own written form. */
  lemma IdentifiedIffValidated(instant: string -> Option<int>, a: SegmentIdent)
    ensures (exists i :: Identify(instant, i) == Ok(a)) <==> Validated(instant, a)
    ensures Validated(instant, a) ==> Identify(instant, Written(a)) == Ok(a)
  {
    forall i | Identify(instant, i) == Ok(a) ensures Validated(instant, a) {
      NormalizedIffSameValue(i.partition.value, i.partition.value);
    }
    if Validated(instant, a) {
      SafeParts(a, '/');
      SplitPair(a.start, a.end, '/');
      assert (a.start + "/" + a.end)[|a.start|] == '/';
      assert Identify(instant, Written(a)) == Ok(a);
    }
  }

  /** Identities that differ only in the spelling of the partition and in the form of the interval
      are the same segment, under the same id. */
  lemma SpellingDoesNotMatter(instant: string -> Option<int>, i: Identity, start: string,
                              end: string, p: string, p': string)
    requires start != "" && end != "" && '/' !in start + end && '_' !in start + end
    requires AllDigits(p) && AllDigits(p') && p != "" && p' != "" && Value(p) == Value(p')
    ensures Identify(instant, i.(interval := Some(start + "/" + end), partition := Some(p))) ==
            Identify(instant, i.(interval := Some(start + "_" + end), partition := Some(p')))
  {
    SplitIntervalReadsBothForms(instant, start, end);
  }

  lemma SafeParts(i: SegmentIdent, c: char)
    requires c !in FerroId(i)
    ensures c !in i.dataSource && c !in i.start && c !in i.end && c !in i.version && c !in i.partition
  {
    var d, s, e, v := i.dataSource + "_", i.start + "_", i.end + "_", i.version + "_";
    assert FerroId(i) == d + (s + (e + (v + i.partition)));
    NotInParts(d, s + (e + (v + i.partition)), c);
    NotInParts(s, e + (v + i.partition), c);
    NotInParts(e, v + i.partition, c);
    NotInParts(v, i.partition, c);
    NotInParts(i.dataSource, "_", c);
    NotInParts(i.start, "_", c);
    NotInParts(i.end, "_", c);
    NotInParts(i.version, "_", c);
  }

  lemma NotInParts(a: string, b: string, c: char)
    ensures c !in a + b <==> c !in a && c !in b
  {
    assert forall x :: x in a + b <==> x in a || x in b;
  }

  lemma SafeJoin(a: string, b: string)
    requires a != "" && SafeComponent(a) && b != "" && '/' !in b && '\\' !in b && '\0' !in b
    ensures SafeComponent(a + "_" + b)
  {
    assert (a + "_" + b)[|a|] == '_' && |a + "_" + b| >= 3;
    forall c | c in ['/', '\\', '\0'] ensures c !in a + "_" + b {
      NotInParts(a + "_", b, c);
      NotInParts(a, "_", c);
    }
  }

  function Stretched(a: SegmentIdent): string { a.start + "_" + a.end }

  lemma StretchedIds(a: SegmentIdent, a': SegmentIdent, a'': SegmentIdent)
    requires a' == a.(version := Stretched(a) + "_" + a.version)
    requires a'' == a.(dataSource := a.dataSource + "_" + Stretched(a))
    ensures FerroId(a') == FerroId(a'') && a' != a''
    ensures FerroId(a') ==
            a.dataSource + "_" + (Stretched(a) + "_" + (a.start + "_" + a.end + "_" + a.version + "_" + a.partition))
  {
    assert |a''.dataSource| > |a'.dataSource|;
  }

  /** The joined id alone does not identify a segment: from every identity that is accepted come two
      that are accepted, are different, and share one id. */
  lemma AcceptedIdentitiesCollide(instant: string -> Option<int>, i: Identity)
    requires Identify(instant, i).Ok?
    ensures var a := Identify(instant, i).value;
      var first := Identify(instant, i.(version := Some(Stretched(a) + "_" + a.version)));
      var second := Identify(instant, i.(dataSource := Some(a.dataSource + "_" + Stretched(a))));
      first.Ok? && second.Ok? && first.value != second.value && FerroId(first.value) == FerroId(second.value)
  {
    var a := Identify(instant, i).value;
    var first := a.(version := Stretched(a) + "_" + a.version);
    var second := a.(dataSource := a.dataSource + "_" + Stretched(a));
    StretchedIds(a, first, second);
    var tail := a.start + "_" + a.end + "_" + a.version + "_" + a.partition;
    forall c | c in ['/', '\\', '\0']
      ensures c !in Stretched(a) && c !in Stretched(a) + "_" + tail
    {
      SafeParts(a, c);
      assert forall x :: x in Stretched(a) + "_" + tail ==>
        x in a.start || x in a.end || x in a.version || x in a.partition || x == '_';
    }
    SafeJoin(a.dataSource, Stretched(a));
    SafeJoin(a.dataSource, Stretched(a) + "_" + tail);
  }

  // ----- What is accepted, character by character -----------------------------------------------

  predicate DigitCodes(s: string) { forall i :: 0 <= i < |s| ==> 48 <= s[i] as int <= 57 }

  /** The value of a digit string, from the left. */
  lemma ValueReadsLeftToRight(s: string, c: char)
    requires DigitCodes(s) && 48 <= c as int <= 57
    ensures AllDigits("") && Value("") == 0
    ensures AllDigits(s) && AllDigits(s + [c]) && Value(s + [c]) == 10 * Value(s) + (c as int - 48)
  {
    assert DigitsIn(s + [c])[..|s|] == DigitsIn(s);
  }

  /** A partition is accepted exactly when it is made of digits, has one, and fits 64 bits. */
  lemma PartitionIsAcceptedIff(s: string)
    ensures NormalizePartition(s).Ok? <==> |s| > 0 && DigitCodes(s) && Value(s) < 18446744073709551616
    ensures NormalizePartition(s).Err? ==> NormalizePartition(s).error == BadPartition
    ensures NormalizePartition(s).Ok? ==> Value(NormalizePartition(s).value) == Value(s)
  {
    assert DigitCodes(s) <==> AllDigits(s);
    if NormalizePartition(s).Ok? {
      ShowValue(Value(s));
    }
  }

  /** Neither nothing nor dots alone, and no slash, backslash or NUL. */
  predicate NamesOneEntry(s: string) {
    && |s| > 0 && !(|s| <= 2 && forall i :: 0 <= i < |s| ==> s[i] as int == 46)
    && forall i :: 0 <= i < |s| ==> s[i] as int != 47 && s[i] as int != 92 && s[i] as int != 0
  }

  lemma SafeIffNamesOneEntry(s: string)
    ensures SafeComponent(s) <==> NamesOneEntry(s)
  {
    assert '/' in s <==> exists i :: 0 <= i < |s| && s[i] as int == 47;
    assert '\\' in s <==> exists i :: 0 <= i < |s| && s[i] as int == 92;
    assert '\0' in s <==> exists i :: 0 <= i < |s| && s[i] as int == 0;
  }

  /** What is broken or incomplete is refused as such, whatever else it says. */
  lemma BrokenOrIncompleteIsRefused(instant: string -> Option<int>, i: Identity)
    ensures i.descriptorBroken ==> Identify(instant, i) == Err(BrokenDescriptor)
    ensures !i.descriptorBroken && (i.dataSource.None? || i.interval.None? || i.version.None? || i.partition.None?) ==>
      Identify(instant, i) == Err(Incomplete)
  {
  }

  /** A complete identity with a pair of bounds is accepted exactly when the bounds are instants in order,
      the partition is a 64-bit number, there is a version, and the data source and the id are fit for a
      path; and then it is the identity it says, with the partition in normal form. */
  lemma IdentityIsAcceptedIff(instant: string -> Option<int>, ds: string, start: string, end: string, version: string,
                              partition: string)
    requires start != "" && end != "" && '/' !in start + end && '_' !in start + end
    ensures var i := Identity(false, Some(ds), Some(start + "/" + end), Some(version), Some(partition));
      var r := Identify(instant, i);
      var fits := |partition| > 0 && DigitCodes(partition) && Value(partition) < 18446744073709551616;
      && (r.Ok? <==>
            && instant(start).Some? && instant(end).Some? && instant(start).value < instant(end).value
            && fits && version != "" && NamesOneEntry(ds)
            && NamesOneEntry(ds + "_" + start + "_" + end + "_" + version + "_" + Show(Value(partition))))
      && (r.Ok? ==> r.value == SegmentIdent(ds, start, end, version, Show(Value(partition))))
  {
    SplitIntervalReadsBothForms(instant, start, end);
    PartitionIsAcceptedIff(partition);
    SafeIffNamesOneEntry(ds);
    if |partition| > 0 && DigitCodes(partition) {
      SafeIffNamesOneEntry(ds + "_" + start + "_" + end + "_" + version + "_" + Show(Value(partition)));
    }
  }
}
