/** Which updates keep what was learned within the limits of its durable form. */
module StorageLimits {
  import opened Geometry
  import opened Learning
  import opened ObservationStore

  // ---------------------------------------------------------------- judged before the update

  /** The numbers an update brings are lengths a document can hold. */
  predicate WithinLimits(u: Update) {
    match u
    case Record(_, candidates) => forall i :: 0 <= i < |candidates| ==> FinitePositive(candidates[i].value)
    case Exact(_, width, height, _) => FinitePositive(width) && FinitePositive(height)
    case Verified(_, constraints) => PositiveConstraints(constraints)
    case Cooperation(_, _) => true
  }

  /** A minimum above a maximum of the same axis. */
  predicate Crosses(min: Candidate, max: Candidate) {
    && ((min.bound == WidthMin && max.bound == WidthMax) || (min.bound == HeightMin && max.bound == HeightMax))
    && min.value > max.value
  }

  /** The candidate does not cross a standing bound. */
  predicate ClearOf(c: Constraints, candidate: Candidate) {
    match candidate.bound
    case WidthMin => InOrder(Some(candidate.value), c.maxWidth)
    case WidthMax => InOrder(c.minWidth, Some(candidate.value))
    case HeightMin => InOrder(Some(candidate.value), c.maxHeight)
    case HeightMax => InOrder(c.minHeight, Some(candidate.value))
  }

  /** No candidate crosses a standing bound or another candidate. */
  ghost predicate Clear(c: Constraints, promoted: seq<Candidate>) {
    && (forall i :: 0 <= i < |promoted| ==> ClearOf(c, promoted[i]))
    && (forall i, j :: 0 <= i < |promoted| && 0 <= j < |promoted| ==> !Crosses(promoted[i], promoted[j]))
  }

  function StandingBounds(store: Store, k: string): Constraints {
    if k in store.profiles then store.profiles[k].constraints else NO_CONSTRAINTS
  }

  function StandingBuckets(store: Store, k: string): Buckets {
    if k in store.pending then store.pending[k] else map[]
  }

  function StandingCount(store: Store, k: string): nat {
    if k in store.profiles then store.profiles[k].sampleCount else 0
  }

  predicate RoomForProfile(store: Store, k: string) {
    k in store.profiles || |store.profiles| < MAX_ITEMS
  }

  predicate RoomForEvidence(store: Store, k: string) {
    k in store.pending || |store.pending| < MAX_ITEMS
  }

  /** What can be said before an update about the store it leaves: there is room for what it adds, the counters
      stay exact, and no minimum it establishes is above a maximum that stands or that it establishes. */
  ghost predicate Admissible(store: Store, u: Update) {
    var k := KeyString(u.key);
    match u
    case Record(_, candidates) =>
      var promoted := FeedAll(StandingBuckets(store, k), candidates).1;
      && (candidates != [] ==> RoomForEvidence(store, k))
      && (promoted != [] ==>
            && RoomForProfile(store, k)
            && StandingCount(store, k) + |promoted| * PROMOTION_SAMPLES <= MAX_SAFE_INTEGER
            && Clear(StandingBounds(store, k), promoted))
    case Exact(_, width, height, tolerance) =>
      var found := Contradictions(StandingBounds(store, k), width, height, tolerance);
      found != [] ==> RoomForEvidence(store, k) && StandingCount(store, k) + |found| <= MAX_SAFE_INTEGER
    case Verified(_, constraints) =>
      && RoomForProfile(store, k)
      && StandingCount(store, k) + BoundCount(constraints) <= MAX_SAFE_INTEGER
      && OrderedConstraints(constraints)
    case Cooperation(_, corrective) =>
      corrective ==>
        && RoomForProfile(store, k)
        && (k in store.profiles ==> store.profiles[k].correctiveAttempts < MAX_SAFE_INTEGER)
  }

  // ---------------------------------------------------------------- bounds in order

  lemma OneBoundInOrder(c: Constraints, p: Candidate)
    ensures OrderedConstraints(WithBound(c, p)) <==> OrderedConstraints(c) && ClearOf(c, p)
  {
  }

  lemma ClearOfBoth(c: Constraints, p: Candidate, q: Candidate)
    ensures ClearOf(WithBound(c, p), q) <==> ClearOf(c, q) && !Crosses(p, q) && !Crosses(q, p)
  {
  }

  /** Tightening keeps the bounds in order exactly when they were and no promoted candidate crosses one of them or
      another candidate. */
  lemma {:induction false} OrderedIffClear(c: Constraints, promoted: seq<Candidate>)
    ensures OrderedConstraints(WithBounds(c, promoted)) <==> OrderedConstraints(c) && Clear(c, promoted)
    decreases |promoted|
  {
    hide OrderedConstraints, ClearOf, Crosses, WithBound;
    if promoted != [] {
      var p, rest := promoted[0], promoted[1..];
      var d := WithBound(c, p);
      OrderedIffClear(d, rest);
      OneBoundInOrder(c, p);
      ClearSplits(c, promoted);
    }
  }

  lemma ClearSplits(c: Constraints, promoted: seq<Candidate>)
    requires promoted != []
    ensures Clear(c, promoted) <==> ClearOf(c, promoted[0]) && Clear(WithBound(c, promoted[0]), promoted[1..])
  {
    hide ClearOf, Crosses, WithBound;
    var p, rest := promoted[0], promoted[1..];
    assert !Crosses(p, p) by { NotItself(p); }
    assert forall i :: 0 < i < |promoted| ==> promoted[i] == rest[i - 1];
    forall i | 0 <= i < |rest|
      ensures ClearOf(WithBound(c, p), rest[i]) <==> ClearOf(c, rest[i]) && !Crosses(p, rest[i]) && !Crosses(rest[i], p)
      ensures rest[i] == promoted[i + 1]
    {
      ClearOfBoth(c, p, rest[i]);
    }
    if Clear(c, promoted) {
      assert Clear(WithBound(c, p), rest);
    }
    if ClearOf(c, p) && Clear(WithBound(c, p), rest) {
      forall i | 0 <= i < |promoted| ensures ClearOf(c, promoted[i]) {
        if i > 0 {
          assert promoted[i] == rest[i - 1];
        }
      }
      forall i, j | 0 <= i < |promoted| && 0 <= j < |promoted| ensures !Crosses(promoted[i], promoted[j]) {
        if i > 0 {
          assert promoted[i] == rest[i - 1];
        }
        if j > 0 {
          assert promoted[j] == rest[j - 1];
        }
      }
    }
  }

  lemma NotItself(p: Candidate)
    ensures !Crosses(p, p)
  {
  }

  /** An exactly observed size moves a contradicted bound inwards of the opposite one: bounds in order stay so. */
  lemma ReplacedStayInOrder(c: Constraints, width: real, height: real, tolerance: real)
    requires OrderedConstraints(c) && PositiveConstraints(c) && FinitePositive(width) && FinitePositive(height)
    ensures var d := ReplaceBounds(c, Contradictions(c, width, height, tolerance));
            OrderedConstraints(d) && PositiveConstraints(d)
  {
    var w1 := if BelowMin(width, c.minWidth, tolerance) then [Candidate(WidthMin, width)] else [];
    var w2 := if AboveMax(width, c.maxWidth, tolerance) then [Candidate(WidthMax, width)] else [];
    var h1 := if BelowMin(height, c.minHeight, tolerance) then [Candidate(HeightMin, height)] else [];
    var h2 := if AboveMax(height, c.maxHeight, tolerance) then [Candidate(HeightMax, height)] else [];
    var a := ReplaceBounds(c, w1);
    var b := ReplaceBounds(a, w2);
    var e := ReplaceBounds(b, h1);
    assert Contradictions(c, width, height, tolerance) == w1 + (w2 + (h1 + h2));
    ReplaceOfConcat(c, w1, w2 + (h1 + h2));
    ReplaceOfConcat(a, w2, h1 + h2);
    ReplaceOfConcat(b, h1, h2);
    ReplaceOne(c, w1);
    ReplaceOne(a, w2);
    ReplaceOne(b, h1);
    ReplaceOne(e, h2);
  }

  // ---------------------------------------------------------------- numbers within the limits

  ghost predicate AllPositive(candidates: seq<Candidate>) {
    forall i :: 0 <= i < |candidates| ==> FinitePositive(candidates[i].value)
  }

  lemma {:induction false} TightenedStayPositive(c: Constraints, promoted: seq<Candidate>)
    requires PositiveConstraints(c) && AllPositive(promoted)
    ensures PositiveConstraints(WithBounds(c, promoted))
    decreases |promoted|
  {
    if promoted != [] {
      TightenedStayPositive(WithBound(c, promoted[0]), promoted[1..]);
    }
  }

  lemma FeedFits(buckets: Buckets, c: Candidate)
    requires BucketsFitSchema(buckets) && FinitePositive(c.value)
    ensures BucketsFitSchema(Feed(buckets, c).0)
  {
    hide Consistent, FinitePositive;
    assert SamplesFitSchema(SamplesFor(buckets, c.bound));
  }

  lemma {:induction false} FedBucketsFit(buckets: Buckets, candidates: seq<Candidate>)
    requires BucketsFitSchema(buckets) && AllPositive(candidates)
    ensures BucketsFitSchema(FeedAll(buckets, candidates).0) && AllPositive(FeedAll(buckets, candidates).1)
  {
    hide BucketsFitSchema, Feed, FinitePositive;
    if candidates != [] {
      var n := |candidates| - 1;
      FedBucketsFit(buckets, candidates[..n]);
      FeedFits(FeedAll(buckets, candidates[..n]).0, candidates[n]);
    }
  }

  lemma {:induction false} ClearedBucketsFit(buckets: Buckets, found: seq<Candidate>)
    requires BucketsFitSchema(buckets)
    ensures BucketsFitSchema(ClearBuckets(buckets, found))
    decreases |found|
  {
    if found != [] {
      ClearedBucketsFit(buckets[found[0].bound := []], found[1..]);
    }
  }

  // ---------------------------------------------------------------- one update

  lemma CountAfter<V>(filed: map<string, V>, k: string, v: V)
    ensures |filed[k := v]| == |filed| + (if k in filed then 0 else 1)
  {
    assert filed[k := v].Keys == filed.Keys + {k};
    assert |filed| == |filed.Keys| && |filed[k := v]| == |filed[k := v].Keys|;
  }

  predicate ProfileInOrder(p: Profile) {
    ProfileFitsSchema(p) && OrderedConstraints(p.constraints)
  }

  ghost predicate ProfilesInOrder(profiles: map<string, Profile>) {
    forall k :: k in profiles ==> ProfileInOrder(profiles[k])
  }

  lemma StorableParts(store: Store)
    ensures Storable(store)
            <==> |store.profiles| <= MAX_ITEMS && |store.pending| <= MAX_ITEMS && ProfilesInOrder(store.profiles)
                 && forall k :: k in store.pending ==> BucketsFitSchema(store.pending[k])
  {
    hide ProfileFitsSchema, OrderedConstraints, BucketsFitSchema;
  }

  lemma OneMoreInOrder(profiles: map<string, Profile>, k: string, p: Profile)
    requires ProfilesInOrder(profiles)
    ensures ProfilesInOrder(profiles[k := p]) <==> ProfileInOrder(p)
  {
    hide ProfileInOrder;
    if ProfilesInOrder(profiles[k := p]) {
      assert profiles[k := p][k] == p;
    }
  }

  /** Filing one profile leaves the store storable exactly when there is room for it and it is itself in order. */
  lemma ProfileFiled(store: Store, k: string, p: Profile)
    requires Storable(store)
    ensures Storable(store.(profiles := store.profiles[k := p])) <==> RoomForProfile(store, k) && ProfileInOrder(p)
  {
    hide Storable, ProfilesInOrder, ProfileInOrder, BucketsFitSchema;
    StorableParts(store);
    StorableParts(store.(profiles := store.profiles[k := p]));
    CountAfter(store.profiles, k, p);
    OneMoreInOrder(store.profiles, k, p);
  }

  lemma EvidenceFiled(store: Store, k: string, buckets: Buckets)
    requires Storable(store) && BucketsFitSchema(buckets)
    ensures Storable(store.(pending := store.pending[k := buckets])) <==> RoomForEvidence(store, k)
  {
    hide Storable, ProfilesInOrder, BucketsFitSchema;
    StorableParts(store);
    StorableParts(store.(pending := store.pending[k := buckets]));
    CountAfter(store.pending, k, buckets);
  }

  /** Evidence and a profile filed together: both must find room, and the profile must be in order. */
  lemma BothFiled(store: Store, k: string, p: Profile, buckets: Buckets)
    requires Storable(store) && BucketsFitSchema(buckets)
    ensures Storable(Store(store.profiles[k := p], store.pending[k := buckets]))
            <==> RoomForEvidence(store, k) && RoomForProfile(store, k) && ProfileInOrder(p)
  {
    hide Storable, ProfilesInOrder, ProfileInOrder, BucketsFitSchema;
    var after := Store(store.profiles[k := p], store.pending[k := buckets]);
    StorableParts(store);
    StorableParts(after);
    CountAfter(store.profiles, k, p);
    CountAfter(store.pending, k, buckets);
    OneMoreInOrder(store.profiles, k, p);
  }

  lemma RecordKeepsIff(store: Store, key: ProfileKey, candidates: seq<Candidate>)
    requires Filed(store) && Storable(store) && ValidKey(key) && AllPositive(candidates)
    ensures Storable(RecordCandidates(store, key, candidates)) <==> Admissible(store, Record(key, candidates))
  {
    hide KeyString, ValidKey, FeedAll, WithBounds, Clear, Storable, OrderedConstraints, PositiveConstraints, BucketsFitSchema,
         Filed, AllPositive;
    if candidates != [] {
      var k := KeyString(key);
      StandingFits(store, k);
      FedBucketsFit(StandingBuckets(store, k), candidates);
      var (buckets, promoted) := FeedAll(StandingBuckets(store, k), candidates);
      if promoted == [] {
        EvidenceFiled(store, k, buckets);
      } else {
        TightenedStayPositive(StandingBounds(store, k), promoted);
        OrderedIffClear(StandingBounds(store, k), promoted);
        BothFiled(store, k, Promote(store, key, promoted), buckets);
      }
    } else {
      assert FeedAll(StandingBuckets(store, KeyString(key)), []).1 == [] by {
        FedNothing(StandingBuckets(store, KeyString(key)));
      }
    }
  }

  lemma StandingFits(store: Store, k: string)
    requires Storable(store)
    ensures PositiveConstraints(StandingBounds(store, k)) && OrderedConstraints(StandingBounds(store, k))
    ensures BucketsFitSchema(StandingBuckets(store, k))
    ensures k in store.profiles ==> ProfileFitsSchema(store.profiles[k])
  {
  }

  lemma ExactKeepsIff(store: Store, key: ProfileKey, width: real, height: real, tolerance: real)
    requires Filed(store) && Storable(store) && ValidKey(key) && FinitePositive(width) && FinitePositive(height)
    ensures Storable(NoteExactFrame(store, key, width, height, tolerance))
            <==> Admissible(store, Exact(key, width, height, tolerance))
  {
    hide KeyString, ValidKey, Contradictions, ReplaceBounds, ClearBuckets, Storable, OrderedConstraints, PositiveConstraints,
         BucketsFitSchema, Filed, FinitePositive;
    var k := KeyString(key);
    var c := StandingBounds(store, k);
    var found := Contradictions(c, width, height, tolerance);
    if k in store.profiles && found != [] {
      StandingFits(store, k);
      ReplacedStayInOrder(c, width, height, tolerance);
      ClearedBucketsFit(StandingBuckets(store, k), found);
      var profile := store.profiles[k];
      var samples := profile.sampleCount + |found|;
      BothFiled(store, k, profile.(constraints := ReplaceBounds(c, found), sampleCount := samples,
                                   confidence := ConfidenceFor(samples)),
                ClearBuckets(StandingBuckets(store, k), found));
    } else if k !in store.profiles {
      NothingContradicted(width, height, tolerance);
    }
  }

  lemma NothingContradicted(width: real, height: real, tolerance: real)
    ensures Contradictions(NO_CONSTRAINTS, width, height, tolerance) == []
  {
  }

  lemma VerifiedKeepsIff(store: Store, key: ProfileKey, constraints: Constraints)
    requires Filed(store) && Storable(store) && ValidKey(key) && PositiveConstraints(constraints)
    ensures Storable(SetVerified(store, key, constraints)) <==> Admissible(store, Verified(key, constraints))
  {
    hide KeyString, ValidKey, Storable, OrderedConstraints, PositiveConstraints, Filed, BoundCount;
    var k := KeyString(key);
    StandingFits(store, k);
    ProfileFiled(store, k, SetVerified(store, key, constraints).profiles[k]);
  }

  lemma CooperationKeepsIff(store: Store, key: ProfileKey, corrective: bool)
    requires Filed(store) && Storable(store) && ValidKey(key)
    ensures Storable(MarkCooperation(store, key, corrective)) <==> Admissible(store, Cooperation(key, corrective))
  {
    hide KeyString, ValidKey, Storable, OrderedConstraints, PositiveConstraints, Filed;
    var k := KeyString(key);
    StandingFits(store, k);
    if corrective {
      NothingFits();
      ProfileFiled(store, k, MarkCooperation(store, key, corrective).profiles[k]);
    } else if k in store.profiles {
      assert store.profiles[k := store.profiles[k]] == store.profiles;
    }
  }

  lemma NothingFits()
    ensures PositiveConstraints(NO_CONSTRAINTS) && OrderedConstraints(NO_CONSTRAINTS)
  {
  }

  /** An update whose numbers are within the limits leaves a storable store storable if and only if it was
      admissible: what decides it is known before the update. */
  lemma UpdateKeepsStorableIff(store: Store, u: Update)
    requires Filed(store) && Storable(store) && ValidKey(u.key) && WithinLimits(u)
    ensures Storable(Apply(store, u)) <==> Admissible(store, u)
  {
    hide Filed, Storable, ValidKey, Admissible, RecordCandidates, NoteExactFrame, SetVerified, MarkCooperation;
    match u
    case Record(key, candidates) => RecordKeepsIff(store, key, candidates);
    case Exact(key, width, height, tolerance) => ExactKeepsIff(store, key, width, height, tolerance);
    case Verified(key, constraints) => VerifiedKeepsIff(store, key, constraints);
    case Cooperation(key, corrective) => CooperationKeepsIff(store, key, corrective);
  }

  // ---------------------------------------------------------------- whole runs

  ghost predicate StorableThroughout(updates: seq<Update>) {
    forall i :: 0 <= i <= |updates| ==> Storable(Run(updates[..i]))
  }

  ghost predicate AdmissibleThroughout(updates: seq<Update>) {
    forall i :: 0 <= i < |updates| ==> Admissible(Run(updates[..i]), updates[i])
  }

  /** Learning can be stored at every moment of a run if and only if each update was admissible when it came. */
  lemma {:induction false} StaysStorableIff(updates: seq<Update>)
    requires forall i :: 0 <= i < |updates| ==> ValidKey(updates[i].key) && WithinLimits(updates[i])
    ensures StorableThroughout(updates) <==> AdmissibleThroughout(updates)
  {
    hide ValidKey, WithinLimits, Storable, Admissible, Run, Apply;
    if updates == [] {
      NothingIsStorable();
      assert updates[..0] == [];
    } else {
      var n := |updates| - 1;
      var before, u := updates[..n], updates[n];
      StaysStorableIff(before);
      OneMoreStorable(before, u);
      OneMoreAdmissible(before, u);
      assert before + [u] == updates;
      ReachableIsFiled(before);
      if StorableThroughout(before) {
        assert before[..n] == before;
        assert Storable(Run(before));
        UpdateKeepsStorableIff(Run(before), u);
      }
    }
  }

  lemma NothingIsStorable()
    ensures Storable(Run([]))
  {
  }

  lemma RunOneMore(before: seq<Update>, u: Update)
    ensures Run(before + [u]) == Apply(Run(before), u)
  {
    hide Apply;
    assert (before + [u])[..|before|] == before;
  }

  lemma OneMoreStorable(before: seq<Update>, u: Update)
    ensures StorableThroughout(before + [u]) <==> StorableThroughout(before) && Storable(Apply(Run(before), u))
  {
    hide Storable, Apply, Run;
    var all := before + [u];
    RunOneMore(before, u);
    assert all[..|all|] == all;
    assert forall i :: 0 <= i <= |before| ==> all[..i] == before[..i];
    assert forall i :: 0 <= i <= |all| ==> i <= |before| || all[..i] == all;
  }

  lemma OneMoreAdmissible(before: seq<Update>, u: Update)
    ensures AdmissibleThroughout(before + [u]) <==> AdmissibleThroughout(before) && Admissible(Run(before), u)
  {
    hide Admissible, Run;
    var all := before + [u];
    assert all[..|before|] == before && all[|before|] == u;
    assert forall i :: 0 <= i <= |before| ==> all[..i] == before[..i];
  }

  /** Updates admissible at their turn leave a store that is written, in any order of its entries, and read back
      unchanged. */
  lemma AdmissibleLearningSurvives(updates: seq<Update>, profileKeys: seq<string>, pendingKeys: seq<string>)
    requires forall i :: 0 <= i < |updates| ==> ValidKey(updates[i].key) && WithinLimits(updates[i])
    requires AdmissibleThroughout(updates)
    requires Lists(profileKeys, Run(updates).profiles.Keys) && Lists(pendingKeys, Run(updates).pending.Keys)
    ensures forall k :: k in profileKeys ==> k in Run(updates).profiles
    ensures forall k :: k in pendingKeys ==> k in Run(updates).pending
    ensures var d := DocumentFrom(Run(updates), profileKeys, pendingKeys);
            d.Ok? && LearningFrom(d.value) == Ok(Run(updates))
  {
    hide ValidKey, WithinLimits, Storable, Admissible, Run, DocumentFrom, LearningFrom, AdmissibleThroughout;
    StaysStorableIff(updates);
    assert updates[..|updates|] == updates;
    assert Storable(Run(updates));
    ListedKeys(Run(updates), profileKeys, pendingKeys);
    LearningSurvivesStorageIff(updates, profileKeys, pendingKeys);
  }
}
