/** Three-way merge of learning stores: local changes since a base, on top of a newer remote. */
module MergeChanges {
  import opened Geometry
  import opened Learning
  import opened ObservationStore

  /** A field changed locally wins; otherwise the remote one stands. */
  function Pick<T(==)>(base: T, local: T, remote: T): T {
    if base == local then remote else local
  }

  function MergeConstraints(base: Constraints, local: Constraints, remote: Constraints): Constraints {
    var merged := Constraints(Pick(base.minWidth, local.minWidth, remote.minWidth),
                              Pick(base.maxWidth, local.maxWidth, remote.maxWidth),
                              Pick(base.minHeight, local.minHeight, remote.minHeight),
                              Pick(base.maxHeight, local.maxHeight, remote.maxHeight));
    if OrderedConstraints(merged) then merged else local
  }

  function MergeProfile(base: Profile, local: Profile, remote: Profile): Profile {
    Profile(remote.key,
            MergeConstraints(base.constraints, local.constraints, remote.constraints),
            Pick(base.sampleCount, local.sampleCount, remote.sampleCount),
            Pick(base.confidence, local.confidence, remote.confidence),
            Pick(base.correctiveAttempts, local.correctiveAttempts, remote.correctiveAttempts),
            Pick(base.cooperative, local.cooperative, remote.cooperative))
  }

  function Rank(c: Confidence): nat {
    match c case Tentative => 0 case Learned => 1 case Strong => 2
  }

  function Most(a: nat, b: nat): nat { if a >= b then a else b }

  /** Both sides added the profile. */
  function MergeAddedProfile(local: Profile, remote: Profile): Profile {
    Profile(remote.key,
            MergeConstraints(NO_CONSTRAINTS, local.constraints, remote.constraints),
            Most(local.sampleCount, remote.sampleCount),
            if Rank(local.confidence) >= Rank(remote.confidence) then local.confidence else remote.confidence,
            Most(local.correctiveAttempts, remote.correctiveAttempts),
            local.cooperative || remote.cooperative)
  }

  function Get<V>(m: map<string, V>, k: string): Option<V> {
    if k in m then Some(m[k]) else None
  }

  /** What becomes of one profile. */
  function MergedProfile(before: Option<Profile>, after: Option<Profile>, remote: Option<Profile>): Option<Profile> {
    if before == after then remote
    else if after.None? then None
    else if remote.None? then after
    else if before.None? then Some(MergeAddedProfile(after.value, remote.value))
    else Some(MergeProfile(before.value, after.value, remote.value))
  }

  function Samples(buckets: Buckets, b: Bound): Option<seq<real>> {
    if b in buckets then Some(buckets[b]) else None
  }

  const ALL_BOUNDS: set<Bound> := {WidthMin, WidthMax, HeightMin, HeightMax}

  lemma EveryBound(b: Bound)
    ensures b in ALL_BOUNDS
  {
    match b case WidthMin => case WidthMax => case HeightMin => case HeightMax =>
  }

  function MergeBuckets(before: Buckets, after: Buckets, remote: Buckets): (r: Buckets)
    ensures forall b :: Samples(r, b) == Pick(Samples(before, b), Samples(after, b), Samples(remote, b))
  {
    assert forall b :: Samples(before, b).Some? || Samples(after, b).Some? || Samples(remote, b).Some? ==> b in ALL_BOUNDS by {
      forall b: Bound ensures b in ALL_BOUNDS { EveryBound(b); }
    }
    map b | b in ALL_BOUNDS && Pick(Samples(before, b), Samples(after, b), Samples(remote, b)).Some?
      :: Pick(Samples(before, b), Samples(after, b), Samples(remote, b)).value
  }

  /** What becomes of one key's evidence. */
  function MergedEvidence(before: Option<Buckets>, after: Option<Buckets>, remote: Option<Buckets>): Option<Buckets> {
    if before == after then remote
    else if after.None? then None
    else if before.None? || remote.None? then after
    else Some(MergeBuckets(before.value, after.value, remote.value))
  }

  function MergeLearningChanges(base: Store, local: Store, remote: Store): (r: Store)
    ensures forall k :: Get(r.profiles, k) == MergedProfile(Get(base.profiles, k), Get(local.profiles, k), Get(remote.profiles, k))
    ensures forall k :: Get(r.pending, k) == MergedEvidence(Get(base.pending, k), Get(local.pending, k), Get(remote.pending, k))
  {
    var keys := base.profiles.Keys + local.profiles.Keys + remote.profiles.Keys;
    var evidence := base.pending.Keys + local.pending.Keys + remote.pending.Keys;
    Store(map k | k in keys && MergedProfile(Get(base.profiles, k), Get(local.profiles, k), Get(remote.profiles, k)).Some?
            :: MergedProfile(Get(base.profiles, k), Get(local.profiles, k), Get(remote.profiles, k)).value,
          map k | k in evidence && MergedEvidence(Get(base.pending, k), Get(local.pending, k), Get(remote.pending, k)).Some?
            :: MergedEvidence(Get(base.pending, k), Get(local.pending, k), Get(remote.pending, k)).value)
  }

  // ---------------------------------------------------------------- the merging loops

  /** Set, replace or drop one entry. */
  function Put<V>(m: map<string, V>, k: string, v: Option<V>): (r: map<string, V>)
    ensures forall x :: Get(r, x) == if x == k then v else Get(m, x)
  {
    if v.Some? then m[k := v.value] else m - {k}
  }

  /** The profile loop: starting from the remote catalog, each locally changed key in turn. */
  method MergeProfiles(base: Store, local: Store, remote: Store) returns (profiles: map<string, Profile>)
    ensures profiles == MergeLearningChanges(base, local, remote).profiles
  {
    profiles := remote.profiles;
    var todo := base.profiles.Keys + local.profiles.Keys;
    while todo != {}
      invariant todo <= base.profiles.Keys + local.profiles.Keys
      invariant forall k :: k in todo ==> Get(profiles, k) == Get(remote.profiles, k)
      invariant forall k :: k !in todo ==>
                  Get(profiles, k) == MergedProfile(Get(base.profiles, k), Get(local.profiles, k), Get(remote.profiles, k))
      decreases todo
    {
      var key :| key in todo;
      todo := todo - {key};
      var before, after := Get(base.profiles, key), Get(local.profiles, key);
      if before != after {
        var current := Get(profiles, key);
        if after.None? {
          profiles := Put(profiles, key, None);
        } else if current.None? {
          profiles := Put(profiles, key, after);
        } else if before.None? {
          profiles := Put(profiles, key, Some(MergeAddedProfile(after.value, current.value)));
        } else {
          profiles := Put(profiles, key, Some(MergeProfile(before.value, after.value, current.value)));
        }
      }
    }
    SameEntries(profiles, MergeLearningChanges(base, local, remote).profiles);
  }

  lemma SameEntries<V>(a: map<string, V>, b: map<string, V>)
    requires forall k :: Get(a, k) == Get(b, k)
    ensures a == b
  {
    forall k ensures (k in a <==> k in b) && (k in a ==> a[k] == b[k]) {
      assert Get(a, k) == Get(b, k);
    }
  }

  // ---------------------------------------------------------------- laws

  /** Nothing changed here: the remote stands. */
  lemma UnchangedYieldsRemote(base: Store, remote: Store)
    ensures MergeLearningChanges(base, base, remote) == remote
  {
    hide MergeLearningChanges;
    var r := MergeLearningChanges(base, base, remote);
    SameEntries(r.profiles, remote.profiles);
    SameEntries(r.pending, remote.pending);
  }

  lemma ChangedProfileYieldsLocal(base: Profile, local: Profile)
    requires base.key == local.key
    ensures MergeProfile(base, local, base) == local
  {
  }

  lemma ChangedBucketsYieldLocal(base: Buckets, local: Buckets)
    ensures MergeBuckets(base, local, base) == local
  {
    hide MergeBuckets;
    var r := MergeBuckets(base, local, base);
    forall b: Bound ensures Samples(r, b) == Samples(local, b) {}
    forall b: Bound ensures (b in r <==> b in local) && (b in r ==> r[b] == local[b]) {
      assert Samples(r, b) == Samples(local, b);
    }
  }

  /** Nothing changed remotely: the local store stands. */
  lemma UnchangedRemoteYieldsLocal(base: Store, local: Store)
    requires Filed(base) && Filed(local)
    ensures MergeLearningChanges(base, local, base) == local
  {
    hide MergeLearningChanges, MergeProfile, MergeBuckets, KeyString, ValidKey;
    var r := MergeLearningChanges(base, local, base);
    forall k ensures Get(r.profiles, k) == Get(local.profiles, k) {
      if k in base.profiles && k in local.profiles {
        KeyStringInjective(base.profiles[k].key, local.profiles[k].key);
        ChangedProfileYieldsLocal(base.profiles[k], local.profiles[k]);
      }
    }
    forall k ensures Get(r.pending, k) == Get(local.pending, k) {
      if k in base.pending && k in local.pending {
        ChangedBucketsYieldLocal(base.pending[k], local.pending[k]);
      }
    }
    SameEntries(r.profiles, local.profiles);
    SameEntries(r.pending, local.pending);
  }

  /** A bound changed since the base keeps its local value. */
  ghost predicate KeepsChanges(base: Constraints, local: Constraints, merged: Constraints) {
    && (base.minWidth != local.minWidth ==> merged.minWidth == local.minWidth)
    && (base.maxWidth != local.maxWidth ==> merged.maxWidth == local.maxWidth)
    && (base.minHeight != local.minHeight ==> merged.minHeight == local.minHeight)
    && (base.maxHeight != local.maxHeight ==> merged.maxHeight == local.maxHeight)
  }

  /** Bounds the local side left alone follow the remote. */
  ghost predicate FollowsRemote(base: Constraints, local: Constraints, remote: Constraints, merged: Constraints) {
    && (base.minWidth == local.minWidth ==> merged.minWidth == remote.minWidth)
    && (base.maxWidth == local.maxWidth ==> merged.maxWidth == remote.maxWidth)
    && (base.minHeight == local.minHeight ==> merged.minHeight == remote.minHeight)
    && (base.maxHeight == local.maxHeight ==> merged.maxHeight == remote.maxHeight)
  }

  /** Local changes always survive and ordered local bounds never merge into crossed ones. Remote values
      of untouched bounds are adopted unless they would cross a local change, in which case all
      four bounds are the local ones. */
  lemma MergedConstraintsLaws(base: Constraints, local: Constraints, remote: Constraints)
    ensures var merged := MergeConstraints(base, local, remote);
            && KeepsChanges(base, local, merged)
            && (OrderedConstraints(local) ==> OrderedConstraints(merged))
            && (FollowsRemote(base, local, remote, merged) || merged == local)
            && (forall c :: KeepsChanges(base, local, c) && FollowsRemote(base, local, remote, c) && OrderedConstraints(c)
                  ==> merged == c)
  {
    forall c | KeepsChanges(base, local, c) && FollowsRemote(base, local, remote, c) && OrderedConstraints(c)
      ensures MergeConstraints(base, local, remote) == c
    {
      assert c == Constraints(Pick(base.minWidth, local.minWidth, remote.minWidth),
                              Pick(base.maxWidth, local.maxWidth, remote.maxWidth),
                              Pick(base.minHeight, local.minHeight, remote.minHeight),
                              Pick(base.maxHeight, local.maxHeight, remote.maxHeight));
    }
  }

  ghost predicate AllOrdered(store: Store) {
    forall k :: k in store.profiles ==> OrderedConstraints(store.profiles[k].constraints)
  }

  /** Merging well-filed stores with ordered bounds gives one again. */
  lemma MergeKeepsStoreSound(base: Store, local: Store, remote: Store)
    requires Filed(base) && Filed(local) && Filed(remote) && AllOrdered(local) && AllOrdered(remote)
    ensures Filed(MergeLearningChanges(base, local, remote)) && AllOrdered(MergeLearningChanges(base, local, remote))
  {
    hide MergeLearningChanges, MergeBuckets, MergeConstraints, KeyString, ValidKey, OrderedConstraints, FewSamples;
    var r := MergeLearningChanges(base, local, remote);
    forall k | k in r.profiles
      ensures ValidKey(r.profiles[k].key) && KeyString(r.profiles[k].key) == k && OrderedConstraints(r.profiles[k].constraints)
    {
      assert Get(r.profiles, k) == MergedProfile(Get(base.profiles, k), Get(local.profiles, k), Get(remote.profiles, k));
      if k in local.profiles && k in remote.profiles {
        var before := if k in base.profiles then base.profiles[k].constraints else NO_CONSTRAINTS;
        MergedConstraintsLaws(before, local.profiles[k].constraints, remote.profiles[k].constraints);
      }
    }
    forall k | k in r.pending ensures FromValidKey(k) && FewSamples(r.pending[k]) {
      assert Get(r.pending, k) == MergedEvidence(Get(base.pending, k), Get(local.pending, k), Get(remote.pending, k));
      if k in base.pending && k in local.pending && k in remote.pending {
        MergedBucketsAreFew(base.pending[k], local.pending[k], remote.pending[k]);
      }
    }
  }

  lemma MergedBucketsAreFew(base: Buckets, local: Buckets, remote: Buckets)
    requires FewSamples(local) && FewSamples(remote)
    ensures FewSamples(MergeBuckets(base, local, remote))
  {
    hide MergeBuckets;
    var r := MergeBuckets(base, local, remote);
    forall b | b in r ensures |r[b]| < PROMOTION_SAMPLES {
      assert Samples(r, b) == Pick(Samples(base, b), Samples(local, b), Samples(remote, b));
    }
  }
}
