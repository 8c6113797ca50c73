/** Durable form of the learning store, and merging concurrent changes to it. */
module ObservationStore {
  import opened Geometry
  import opened Learning

  datatype StoredEvidence = StoredEvidence(key: ProfileKey, samples: Buckets)

  datatype Document = Document(profiles: seq<Profile>, pending: seq<StoredEvidence>)

  datatype DecodeError =
    | SchemaMismatch
    | MinExceedsMax
    | DuplicateProfile
    | DuplicateEvidence
    | InvalidInternalKey

  datatype Result<+T> = Ok(value: T) | Err(error: DecodeError)

  const MAX_LENGTH: real := 1000000.0
  const MAX_SAFE_INTEGER: nat := 9007199254740991
  const MAX_ITEMS: nat := 10000
  const MAX_SAMPLES: nat := 16

  // ---------------------------------------------------------------- validation

  predicate FinitePositive(v: real) { 0.0 < v <= MAX_LENGTH }

  predicate PositiveBound(o: Option<real>) { o.Some? ==> FinitePositive(o.value) }

  predicate PositiveConstraints(c: Constraints) {
    PositiveBound(c.minWidth) && PositiveBound(c.maxWidth) && PositiveBound(c.minHeight) && PositiveBound(c.maxHeight)
  }

  predicate InOrder(min: Option<real>, max: Option<real>) {
    min.None? || max.None? || min.value <= max.value
  }

  predicate OrderedConstraints(c: Constraints) {
    InOrder(c.minWidth, c.maxWidth) && InOrder(c.minHeight, c.maxHeight)
  }

  predicate ProfileFitsSchema(p: Profile) {
    && ValidKey(p.key) && PositiveConstraints(p.constraints)
    && p.sampleCount <= MAX_SAFE_INTEGER && p.correctiveAttempts <= MAX_SAFE_INTEGER
  }

  predicate SamplesFitSchema(samples: seq<real>) {
    |samples| <= MAX_SAMPLES && forall i :: 0 <= i < |samples| ==> FinitePositive(samples[i])
  }

  predicate BucketsFitSchema(buckets: Buckets) {
    forall b :: b in buckets ==> SamplesFitSchema(buckets[b])
  }

  predicate FitsSchema(d: Document) {
    && |d.profiles| <= MAX_ITEMS && |d.pending| <= MAX_ITEMS
    && (forall i :: 0 <= i < |d.profiles| ==> ProfileFitsSchema(d.profiles[i]))
    && (forall i :: 0 <= i < |d.pending| ==> ValidKey(d.pending[i].key) && BucketsFitSchema(d.pending[i].samples))
  }

  function CheckProfiles(profiles: seq<Profile>, seen: set<string>): Option<DecodeError> {
    if profiles == [] then None
    else if !OrderedConstraints(profiles[0].constraints) then Some(MinExceedsMax)
    else if KeyString(profiles[0].key) in seen then Some(DuplicateProfile)
    else CheckProfiles(profiles[1..], seen + {KeyString(profiles[0].key)})
  }

  function CheckPending(pending: seq<StoredEvidence>, seen: set<string>): Option<DecodeError> {
    if pending == [] then None
    else if KeyString(pending[0].key) in seen then Some(DuplicateEvidence)
    else CheckPending(pending[1..], seen + {KeyString(pending[0].key)})
  }

  /** Untrusted durable data is taken only when it fits the schema, its bounds are ordered and no key
      occurs twice. */
  function Decode(d: Document): Result<Document> {
    if !FitsSchema(d) then Err(SchemaMismatch) else
      var badProfile := CheckProfiles(d.profiles, {});
      if badProfile.Some? then Err(badProfile.value) else
        var badEvidence := CheckPending(d.pending, {});
        if badEvidence.Some? then Err(badEvidence.value) else Ok(d)
  }

  method DecodeDocument(d: Document) returns (r: Result<Document>)
    ensures r == Decode(d)
  {
    if !FitsSchema(d) {
      return Err(SchemaMismatch);
    }
    var seen: set<string> := {};
    for i := 0 to |d.profiles|
      invariant CheckProfiles(d.profiles, {}) == CheckProfiles(d.profiles[i..], seen)
    {
      if !OrderedConstraints(d.profiles[i].constraints) {
        return Err(MinExceedsMax);
      }
      if KeyString(d.profiles[i].key) in seen {
        return Err(DuplicateProfile);
      }
      seen := seen + {KeyString(d.profiles[i].key)};
    }
    seen := {};
    for i := 0 to |d.pending|
      invariant CheckPending(d.pending, {}) == CheckPending(d.pending[i..], seen)
    {
      if KeyString(d.pending[i].key) in seen {
        return Err(DuplicateEvidence);
      }
      seen := seen + {KeyString(d.pending[i].key)};
    }
    r := Ok(d);
  }

  // ---------------------------------------------------------------- keys from strings

  /** Pieces between NULs. */
  function SplitNul(s: string): (parts: seq<string>)
    ensures |parts| >= 1
  {
    if s == "" then [""]
    else
      var rest := SplitNul(s[1..]);
      if s[0] == NUL then [""] + rest else [[s[0]] + rest[0]] + rest[1..]
  }

  function KeyFromString(s: string): Result<ProfileKey> {
    var parts := SplitNul(s);
    if |parts| != 4 then Err(InvalidInternalKey) else
      var key := ProfileKey(parts[0], parts[1], if parts[2] == "" then None else Some(parts[2]), parts[3]);
      if ValidKey(key) then Ok(key) else Err(InvalidInternalKey)
  }

  lemma {:induction false} SplitFirst(head: string, rest: string)
    requires NUL !in head
    ensures SplitNul(head + [NUL] + rest) == [head] + SplitNul(rest)
  {
    var s := head + [NUL] + rest;
    if head == "" {
      assert s[1..] == rest;
    } else {
      assert s[1..] == head[1..] + [NUL] + rest;
      SplitFirst(head[1..], rest);
      assert [head[0]] + head[1..] == head;
    }
  }

  lemma {:induction false} SplitPlain(s: string)
    requires NUL !in s
    ensures SplitNul(s) == [s]
  {
    if s != "" {
      SplitPlain(s[1..]);
      assert [s[0]] + s[1..] == s;
    }
  }

  /** A valid key is recovered from its string. */
  lemma KeyRoundTrip(key: ProfileKey)
    requires ValidKey(key)
    ensures KeyFromString(KeyString(key)) == Ok(key)
  {
    var subrole := if key.subrole.Some? then key.subrole.value else "";
    var tail := subrole + [NUL] + key.context;
    SplitFirst(key.application, key.role + [NUL] + tail);
    SplitFirst(key.role, tail);
    SplitFirst(subrole, key.context);
    SplitPlain(key.context);
    assert KeyString(key) == key.application + [NUL] + (key.role + [NUL] + tail);
  }

  /** Different valid keys have different strings. */
  lemma KeyStringInjective(a: ProfileKey, b: ProfileKey)
    requires ValidKey(a) && ValidKey(b) && KeyString(a) == KeyString(b)
    ensures a == b
  {
    hide KeyFromString, KeyString, ValidKey;
    KeyRoundTrip(a);
    KeyRoundTrip(b);
  }

  // ---------------------------------------------------------------- writing and reading

  /** `keys` lists a map's keys, each once. The order, a locale's, does not matter. */
  ghost predicate Lists(keys: seq<string>, domain: set<string>) {
    && (forall i, j :: 0 <= i < j < |keys| ==> keys[i] != keys[j])
    && (forall k :: k in domain <==> k in keys)
  }

  function ProfilesOf(store: Store, keys: seq<string>): (r: seq<Profile>)
    requires forall k :: k in keys ==> k in store.profiles
    ensures |r| == |keys| && forall i :: 0 <= i < |keys| ==> r[i] == store.profiles[keys[i]]
  {
    seq(|keys|, i requires 0 <= i < |keys| => store.profiles[keys[i]])
  }

  function EvidenceKey(store: Store, k: string): Result<ProfileKey> {
    if k in store.profiles then Ok(store.profiles[k].key) else KeyFromString(k)
  }

  function EvidenceOf(store: Store, keys: seq<string>): (r: Result<seq<StoredEvidence>>)
    requires forall k :: k in keys ==> k in store.pending
    ensures r.Ok? ==> |r.value| == |keys|
  {
    if keys == [] then Ok([]) else
      var key := EvidenceKey(store, keys[0]);
      if key.Err? then Err(key.error) else
        var rest := EvidenceOf(store, keys[1..]);
        if rest.Err? then rest else Ok([StoredEvidence(key.value, store.pending[keys[0]])] + rest.value)
  }

  /** The document of a store, its entries in the given orders. */
  function DocumentFrom(store: Store, profileKeys: seq<string>, pendingKeys: seq<string>): Result<Document>
    requires forall k :: k in profileKeys ==> k in store.profiles
    requires forall k :: k in pendingKeys ==> k in store.pending
  {
    var pending := EvidenceOf(store, pendingKeys);
    if pending.Err? then Err(pending.error)
    else Decode(Document(ProfilesOf(store, profileKeys), pending.value))
  }

  function FileProfiles(profiles: seq<Profile>): map<string, Profile> {
    if profiles == [] then map[] else
      FileProfiles(profiles[..|profiles| - 1])[KeyString(profiles[|profiles| - 1].key) := profiles[|profiles| - 1]]
  }

  function FileEvidence(pending: seq<StoredEvidence>): map<string, Buckets> {
    if pending == [] then map[] else
      FileEvidence(pending[..|pending| - 1])[KeyString(pending[|pending| - 1].key) := pending[|pending| - 1].samples]
  }

  function LearningFrom(d: Document): Result<Store> {
    var decoded := Decode(d);
    if decoded.Err? then Err(decoded.error)
    else Ok(Store(FileProfiles(decoded.value.profiles), FileEvidence(decoded.value.pending)))
  }

  method LoadLearning(d: Document) returns (r: Result<Store>)
    ensures r == LearningFrom(d)
  {
    var decoded := DecodeDocument(d);
    if decoded.Err? {
      return Err(decoded.error);
    }
    var profiles: map<string, Profile> := map[];
    for i := 0 to |d.profiles|
      invariant profiles == FileProfiles(d.profiles[..i])
    {
      assert d.profiles[..i + 1][..i] == d.profiles[..i];
      profiles := profiles[KeyString(d.profiles[i].key) := d.profiles[i]];
    }
    var pending: map<string, Buckets> := map[];
    for i := 0 to |d.pending|
      invariant pending == FileEvidence(d.pending[..i])
    {
      assert d.pending[..i + 1][..i] == d.pending[..i];
      pending := pending[KeyString(d.pending[i].key) := d.pending[i].samples];
    }
    assert d.profiles[..|d.profiles|] == d.profiles && d.pending[..|d.pending|] == d.pending;
    r := Ok(Store(profiles, pending));
  }

  /** A store whose numbers are within the document's limits and whose bounds are ordered. */
  ghost predicate Storable(store: Store) {
    && |store.profiles| <= MAX_ITEMS && |store.pending| <= MAX_ITEMS
    && (forall k :: k in store.profiles ==>
          ProfileFitsSchema(store.profiles[k]) && OrderedConstraints(store.profiles[k].constraints))
    && (forall k :: k in store.pending ==> BucketsFitSchema(store.pending[k]))
  }

  lemma {:induction false} NoProfileFault(profiles: seq<Profile>, seen: set<string>)
    requires forall i :: 0 <= i < |profiles| ==> OrderedConstraints(profiles[i].constraints)
    requires forall i :: 0 <= i < |profiles| ==> KeyString(profiles[i].key) !in seen
    requires forall i, j :: 0 <= i < j < |profiles| ==> KeyString(profiles[i].key) != KeyString(profiles[j].key)
    ensures CheckProfiles(profiles, seen).None?
  {
    hide KeyString, OrderedConstraints;
    if profiles != [] {
      var rest := profiles[1..];
      forall i, j | 0 <= i < j < |rest| ensures KeyString(rest[i].key) != KeyString(rest[j].key) {
        assert rest[i] == profiles[i + 1] && rest[j] == profiles[j + 1];
      }
      NoProfileFault(rest, seen + {KeyString(profiles[0].key)});
    }
  }

  lemma {:induction false} NoEvidenceFault(pending: seq<StoredEvidence>, seen: set<string>)
    requires forall i :: 0 <= i < |pending| ==> KeyString(pending[i].key) !in seen
    requires forall i, j :: 0 <= i < j < |pending| ==> KeyString(pending[i].key) != KeyString(pending[j].key)
    ensures CheckPending(pending, seen).None?
  {
    hide KeyString;
    if pending != [] {
      var rest := pending[1..];
      forall i, j | 0 <= i < j < |rest| ensures KeyString(rest[i].key) != KeyString(rest[j].key) {
        assert rest[i] == pending[i + 1] && rest[j] == pending[j + 1];
      }
      NoEvidenceFault(rest, seen + {KeyString(pending[0].key)});
    }
  }

  lemma {:induction false} FiledProfiles(profiles: seq<Profile>, keys: seq<string>)
    requires |profiles| == |keys|
    requires forall i :: 0 <= i < |keys| ==> KeyString(profiles[i].key) == keys[i]
    requires forall i, j :: 0 <= i < j < |keys| ==> keys[i] != keys[j]
    ensures forall k :: k in FileProfiles(profiles) <==> k in keys
    ensures forall i :: 0 <= i < |keys| ==> keys[i] in FileProfiles(profiles) && FileProfiles(profiles)[keys[i]] == profiles[i]
  {
    hide KeyString;
    if profiles != [] {
      var n := |profiles| - 1;
      FiledProfiles(profiles[..n], keys[..n]);
      assert keys == keys[..n] + [keys[n]];
    }
  }

  lemma {:induction false} FiledEvidence(pending: seq<StoredEvidence>, keys: seq<string>)
    requires |pending| == |keys|
    requires forall i :: 0 <= i < |keys| ==> KeyString(pending[i].key) == keys[i]
    requires forall i, j :: 0 <= i < j < |keys| ==> keys[i] != keys[j]
    ensures forall k :: k in FileEvidence(pending) <==> k in keys
    ensures forall i :: 0 <= i < |keys| ==> keys[i] in FileEvidence(pending) && FileEvidence(pending)[keys[i]] == pending[i].samples
  {
    hide KeyString;
    if pending != [] {
      var n := |pending| - 1;
      FiledEvidence(pending[..n], keys[..n]);
      assert keys == keys[..n] + [keys[n]];
    }
  }

  lemma EvidenceKeyIsFound(store: Store, k: string)
    requires Filed(store) && k in store.pending
    ensures var key := EvidenceKey(store, k); key.Ok? && ValidKey(key.value) && KeyString(key.value) == k
  {
    hide KeyFromString, KeyString, ValidKey;
    if k !in store.profiles {
      var key :| ValidKey(key) && KeyString(key) == k;
      KeyRoundTrip(key);
    }
  }

  lemma {:induction false} EvidenceIsWritten(store: Store, keys: seq<string>)
    requires Filed(store) && forall k :: k in keys ==> k in store.pending
    ensures var r := EvidenceOf(store, keys);
            r.Ok? && forall i :: 0 <= i < |keys| ==>
              ValidKey(r.value[i].key) && KeyString(r.value[i].key) == keys[i] && r.value[i].samples == store.pending[keys[i]]
  {
    hide Filed, EvidenceKey, KeyString, ValidKey;
    if keys != [] {
      EvidenceKeyIsFound(store, keys[0]);
      EvidenceIsWritten(store, keys[1..]);
    }
  }

  lemma {:induction false} ListLength(keys: seq<string>, domain: set<string>)
    requires Lists(keys, domain)
    ensures |keys| == |domain|
  {
    if keys == [] {
      assert domain == {};
    } else {
      var n := |keys| - 1;
      assert keys == keys[..n] + [keys[n]];
      ListLength(keys[..n], domain - {keys[n]});
    }
  }

  lemma WrittenFits(store: Store, profileKeys: seq<string>, pendingKeys: seq<string>)
    requires Filed(store) && Storable(store)
    requires Lists(profileKeys, store.profiles.Keys) && Lists(pendingKeys, store.pending.Keys)
    ensures EvidenceOf(store, pendingKeys).Ok?
    ensures FitsSchema(Document(ProfilesOf(store, profileKeys), EvidenceOf(store, pendingKeys).value))
  {
    hide KeyString, ValidKey, OrderedConstraints, BucketsFitSchema, EvidenceOf, ProfileFitsSchema;
    EvidenceIsWritten(store, pendingKeys);
    ListLength(profileKeys, store.profiles.Keys);
    ListLength(pendingKeys, store.pending.Keys);
    forall i | 0 <= i < |profileKeys| ensures profileKeys[i] in store.profiles {
      assert profileKeys[i] in profileKeys;
    }
    forall i | 0 <= i < |pendingKeys| ensures pendingKeys[i] in store.pending {
      assert pendingKeys[i] in pendingKeys;
    }
  }

  lemma WrittenProfiles(store: Store, keys: seq<string>)
    requires Filed(store) && Storable(store) && Lists(keys, store.profiles.Keys)
    ensures CheckProfiles(ProfilesOf(store, keys), {}).None?
    ensures FileProfiles(ProfilesOf(store, keys)) == store.profiles
  {
    hide KeyString, ValidKey, OrderedConstraints, BucketsFitSchema, ProfileFitsSchema, CheckProfiles, FileProfiles;
    var profiles := ProfilesOf(store, keys);
    forall i | 0 <= i < |keys| ensures KeyString(profiles[i].key) == keys[i] && OrderedConstraints(profiles[i].constraints) {
      assert keys[i] in keys;
    }
    NoProfileFault(profiles, {});
    FiledProfiles(profiles, keys);
    assert FileProfiles(profiles) == store.profiles;
  }

  lemma WrittenEvidence(store: Store, keys: seq<string>)
    requires Filed(store) && Lists(keys, store.pending.Keys)
    ensures EvidenceOf(store, keys).Ok?
    ensures CheckPending(EvidenceOf(store, keys).value, {}).None?
    ensures FileEvidence(EvidenceOf(store, keys).value) == store.pending
  {
    hide KeyString, ValidKey, CheckPending, FileEvidence, EvidenceOf, Filed;
    EvidenceIsWritten(store, keys);
    var pending := EvidenceOf(store, keys).value;
    NoEvidenceFault(pending, {});
    FiledEvidence(pending, keys);
    assert FileEvidence(pending) == store.pending;
  }

  /** Every well-filed store within the document's limits is written and read back unchanged, in
      whatever order its entries are written. */
  lemma StoreRoundTrip(store: Store, profileKeys: seq<string>, pendingKeys: seq<string>)
    requires Filed(store) && Storable(store)
    requires Lists(profileKeys, store.profiles.Keys) && Lists(pendingKeys, store.pending.Keys)
    ensures var d := DocumentFrom(store, profileKeys, pendingKeys);
            d.Ok? && LearningFrom(d.value) == Ok(store)
  {
    hide EvidenceOf, ProfilesOf, FitsSchema, CheckProfiles, CheckPending, FileProfiles, FileEvidence, Filed, Storable;
    WrittenFits(store, profileKeys, pendingKeys);
    WrittenProfiles(store, profileKeys);
    WrittenEvidence(store, pendingKeys);
  }

  lemma {:induction false} NoFaultMeansOrdered(profiles: seq<Profile>, seen: set<string>)
    requires CheckProfiles(profiles, seen).None?
    ensures forall i :: 0 <= i < |profiles| ==> OrderedConstraints(profiles[i].constraints)
  {
    hide OrderedConstraints, KeyString;
    if profiles != [] {
      var rest := profiles[1..];
      NoFaultMeansOrdered(rest, seen + {KeyString(profiles[0].key)});
      forall i | 0 <= i < |profiles| ensures OrderedConstraints(profiles[i].constraints) {
        if i > 0 {
          assert rest[i - 1] == profiles[i];
        }
      }
    }
  }

  lemma FittingIsStorable(store: Store, profileKeys: seq<string>, pendingKeys: seq<string>)
    requires Filed(store) && Lists(profileKeys, store.profiles.Keys) && Lists(pendingKeys, store.pending.Keys)
    requires EvidenceOf(store, pendingKeys).Ok?
    requires FitsSchema(Document(ProfilesOf(store, profileKeys), EvidenceOf(store, pendingKeys).value))
    requires CheckProfiles(ProfilesOf(store, profileKeys), {}).None?
    ensures Storable(store)
  {
    hide KeyString, ValidKey, OrderedConstraints, BucketsFitSchema, EvidenceOf, ProfileFitsSchema, CheckProfiles, Filed;
    EvidenceIsWritten(store, pendingKeys);
    ListLength(profileKeys, store.profiles.Keys);
    ListLength(pendingKeys, store.pending.Keys);
    var profiles, pending := ProfilesOf(store, profileKeys), EvidenceOf(store, pendingKeys).value;
    NoFaultMeansOrdered(profiles, {});
    forall k | k in store.profiles
      ensures ProfileFitsSchema(store.profiles[k]) && OrderedConstraints(store.profiles[k].constraints)
    {
      assert k in profileKeys;
      var i :| 0 <= i < |profileKeys| && profileKeys[i] == k;
      assert profiles[i] == store.profiles[k];
    }
    forall k | k in store.pending ensures BucketsFitSchema(store.pending[k]) {
      assert k in pendingKeys;
      var i :| 0 <= i < |pendingKeys| && pendingKeys[i] == k;
      assert pending[i].samples == store.pending[k];
    }
  }

  /** A well-filed store can be written if and only if it is within the document's limits with its bounds in order. */
  lemma WrittenIffStorable(store: Store, profileKeys: seq<string>, pendingKeys: seq<string>)
    requires Filed(store) && Lists(profileKeys, store.profiles.Keys) && Lists(pendingKeys, store.pending.Keys)
    ensures DocumentFrom(store, profileKeys, pendingKeys).Ok? <==> Storable(store)
  {
    hide EvidenceOf, ProfilesOf, FitsSchema, CheckProfiles, CheckPending, FileProfiles, FileEvidence, Filed, Storable;
    if Storable(store) {
      StoreRoundTrip(store, profileKeys, pendingKeys);
    } else if DocumentFrom(store, profileKeys, pendingKeys).Ok? {
      FittingIsStorable(store, profileKeys, pendingKeys);
      assert false;
    }
  }

  /** What was learned through valid keys can be stored if and only if its numbers are within the document's limits
      and no bounds have crossed; what is stored is read back unchanged. */
  lemma LearningSurvivesStorageIff(updates: seq<Update>, profileKeys: seq<string>, pendingKeys: seq<string>)
    requires forall i :: 0 <= i < |updates| ==> ValidKey(updates[i].key)
    requires Lists(profileKeys, Run(updates).profiles.Keys) && Lists(pendingKeys, Run(updates).pending.Keys)
    ensures var d := DocumentFrom(Run(updates), profileKeys, pendingKeys);
            && (d.Ok? <==> Storable(Run(updates)))
            && (d.Ok? ==> LearningFrom(d.value) == Ok(Run(updates)))
  {
    hide *;
    ReachableIsFiled(updates);
    ListedKeys(Run(updates), profileKeys, pendingKeys);
    WrittenIffStorable(Run(updates), profileKeys, pendingKeys);
    if Storable(Run(updates)) {
      StoreRoundTrip(Run(updates), profileKeys, pendingKeys);
    }
  }

  // ---------------------------------------------------------------- crossed bounds

  /** The same evidence three times over, as one confirmed clamp gives it. */
  function Thrice(key: ProfileKey, bound: Bound, value: real): Update {
    Record(key, [Candidate(bound, value), Candidate(bound, value), Candidate(bound, value)])
  }

  lemma OneMore(buckets: Buckets, c: Candidate, before: seq<real>)
    requires SamplesFor(buckets, c.bound) == before
    ensures |before| < 2 ==> Feed(buckets, c) == (buckets[c.bound := before + [c.value]], false)
    ensures before == [c.value, c.value] ==> Feed(buckets, c) == (buckets[c.bound := []], true)
  {
    if before == [c.value, c.value] {
      AllAlike(c.value);
      assert before + [c.value] == [c.value, c.value, c.value];
    }
  }

  lemma FeedOne(buckets: Buckets, before: seq<Candidate>, c: Candidate)
    ensures var (fed, promoted) := FeedAll(buckets, before);
            var (next, hit) := Feed(fed, c);
            FeedAll(buckets, before + [c]) == (next, if hit then promoted + [c] else promoted)
  {
    hide Feed;
    assert (before + [c])[..|before|] == before;
  }

  lemma FedSoFar(buckets: Buckets, before: seq<Candidate>, fed: Buckets, c: Candidate, samples: seq<real>)
    requires FeedAll(buckets, before) == (fed, []) && SamplesFor(fed, c.bound) == samples
    ensures |samples| < 2 ==> FeedAll(buckets, before + [c]) == (fed[c.bound := samples + [c.value]], [])
    ensures samples == [c.value, c.value] ==> FeedAll(buckets, before + [c]) == (fed[c.bound := []], [c])
  {
    hide Feed, FeedAll, SamplesFor;
    FeedOne(buckets, before, c);
    OneMore(fed, c, samples);
    assert [] + [c] == [c];
  }

  lemma ThreeSamplesPromote(buckets: Buckets, bound: Bound, value: real)
    requires SamplesFor(buckets, bound) == []
    ensures var c := Candidate(bound, value);
            FeedAll(buckets, [c, c, c]) == (buckets[bound := []], [c])
  {
    hide FeedAll;
    var c := Candidate(bound, value);
    var one, two := buckets[bound := [value]], buckets[bound := [value, value]];
    assert FeedAll(buckets, []) == (buckets, []) by { FedNothing(buckets); }
    FedSoFar(buckets, [], buckets, c, []);
    assert [] + [value] == [value] && [] + [c] == [c];
    FedSoFar(buckets, [c], one, c, [value]);
    assert [value] + [value] == [value, value] && [c] + [c] == [c, c];
    assert one[bound := [value, value]] == two && two[bound := []] == buckets[bound := []];
    FedSoFar(buckets, [c, c], two, c, [value, value]);
    assert [c, c] + [c] == [c, c, c];
  }

  lemma FedNothing(buckets: Buckets)
    ensures FeedAll(buckets, []) == (buckets, [])
  {
  }

  lemma AllAlike(value: real)
    ensures Consistent([value, value, value])
  {
    var three, two := [value, value, value], [value, value];
    assert two[1..] == [value] == two[..1] && three[1..] == two == three[..2];
    assert Highest([value]) == value == Lowest([value]);
    assert Highest(two) == value == Lowest(two);
  }

  lemma PromoteOne(store: Store, key: ProfileKey, c: Candidate)
    ensures var k := KeyString(key);
            Promote(store, key, [c]).key == key
            && Promote(store, key, [c]).sampleCount == (if k in store.profiles then store.profiles[k].sampleCount else 0) + 3
            && Promote(store, key, [c]).correctiveAttempts == (if k in store.profiles then store.profiles[k].correctiveAttempts else 0)
            && Promote(store, key, [c]).constraints
               == WithBound(if k in store.profiles then store.profiles[k].constraints else NO_CONSTRAINTS, c)
  {
    hide KeyString, WithBound;
    var k := KeyString(key);
    var start := if k in store.profiles then store.profiles[k].constraints else NO_CONSTRAINTS;
    assert [c][1..] == [];
    assert WithBounds(WithBound(start, c), []) == WithBound(start, c);
    assert WithBounds(start, [c]) == WithBounds(WithBound(start, c), [c][1..]);
  }

  /** Three like samples are one promotion. */
  lemma ThriceApplied(store: Store, key: ProfileKey, bound: Bound, value: real)
    requires var k := KeyString(key);
             k in store.pending ==> SamplesFor(store.pending[k], bound) == []
    ensures var k := KeyString(key);
            Apply(store, Thrice(key, bound, value))
            == Store(store.profiles[k := Promote(store, key, [Candidate(bound, value)])],
                     store.pending[k := (if k in store.pending then store.pending[k] else map[])[bound := []]])
  {
    hide KeyString, FeedAll, Promote;
    var k := KeyString(key);
    ThreeSamplesPromote(if k in store.pending then store.pending[k] else map[], bound, value);
  }

  lemma RunTwo(first: Update, second: Update)
    ensures Run([first, second]) == Apply(Apply(EMPTY_STORE, first), second)
  {
    hide Apply;
    assert [first, second][..1] == [first] && [first][..0] == [];
    assert Run([first]) == Apply(EMPTY_STORE, first);
  }

  /** A minimum learned above a maximum learned later: nothing checks the one against the other, and from then on
      no part of the store can be written. */
  lemma CrossedBoundsCannotBeStored(key: ProfileKey, most: real, least: real)
    requires ValidKey(key) && 0.0 < most < least <= MAX_LENGTH
    ensures var updates := [Thrice(key, WidthMin, least), Thrice(key, WidthMax, most)];
            var k := KeyString(key);
            && k in Run(updates).profiles
            && Run(updates).profiles[k].constraints == Constraints(Some(least), Some(most), None, None)
            && !Storable(Run(updates))
            && Run(updates).profiles.Keys == Run(updates).pending.Keys == {k}
            && DocumentFrom(Run(updates), [k], [k]) == Err(MinExceedsMax)
  {
    hide KeyString, ValidKey, Apply, Promote, EvidenceOf, Run;
    var k := KeyString(key);
    var first, second := Thrice(key, WidthMin, least), Thrice(key, WidthMax, most);
    RunTwo(first, second);
    ThriceApplied(EMPTY_STORE, key, WidthMin, least);
    PromoteOne(EMPTY_STORE, key, Candidate(WidthMin, least));
    var s1 := Apply(EMPTY_STORE, first);
    assert s1.pending[k] == map[WidthMin := []];
    ThriceApplied(s1, key, WidthMax, most);
    PromoteOne(s1, key, Candidate(WidthMax, most));
    var s2 := Apply(s1, second);
    CrossedStore(s2, key, most, least);
  }

  lemma CrossedStore(store: Store, key: ProfileKey, most: real, least: real)
    requires ValidKey(key) && 0.0 < most < least <= MAX_LENGTH
    requires var k := KeyString(key);
             && store.profiles.Keys == store.pending.Keys == {k}
             && store.profiles[k].key == key && store.profiles[k].constraints == Constraints(Some(least), Some(most), None, None)
             && store.profiles[k].sampleCount == 6 && store.profiles[k].correctiveAttempts == 0
             && store.pending[k] == map[WidthMin := [], WidthMax := []]
    ensures var k := KeyString(key);
            !Storable(store) && DocumentFrom(store, [k], [k]) == Err(MinExceedsMax)
  {
    hide KeyString, ValidKey;
    var k := KeyString(key);
    assert k in store.profiles && k in store.pending;
    assert [k][1..] == [];
    assert EvidenceOf(store, []) == Ok([]);
    var pending := [StoredEvidence(key, store.pending[k])];
    assert [StoredEvidence(key, store.pending[k])] + [] == pending;
    assert EvidenceOf(store, [k]) == Ok(pending);
    assert FitsSchema(Document(ProfilesOf(store, [k]), pending));
    assert CheckProfiles(ProfilesOf(store, [k]), {}) == Some(MinExceedsMax);
  }

  lemma ListedKeys(store: Store, profileKeys: seq<string>, pendingKeys: seq<string>)
    requires Lists(profileKeys, store.profiles.Keys) && Lists(pendingKeys, store.pending.Keys)
    ensures forall k :: k in profileKeys ==> k in store.profiles
    ensures forall k :: k in pendingKeys ==> k in store.pending
  {
  }
}
