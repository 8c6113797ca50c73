/** Learned size constraints: evidence buckets, promotion, contradiction and cooperation. */
module Learning {
  import opened Geometry

  datatype Constraints = Constraints(minWidth: Option<real>, maxWidth: Option<real>,
                                     minHeight: Option<real>, maxHeight: Option<real>)

  const NO_CONSTRAINTS := Constraints(None, None, None, None)

  datatype ProfileKey = ProfileKey(application: string, role: string, subrole: Option<string>, context: string)

  datatype Confidence = Tentative | Learned | Strong

  datatype Profile = Profile(key: ProfileKey, constraints: Constraints, sampleCount: nat, confidence: Confidence,
                             correctiveAttempts: nat, cooperative: bool)

  /** The four bounds evidence is gathered for. */
  datatype Bound = WidthMin | WidthMax | HeightMin | HeightMax

  type Buckets = map<Bound, seq<real>>

  datatype Store = Store(profiles: map<string, Profile>, pending: map<string, Buckets>)

  const EMPTY_STORE := Store(map[], map[])

  const PROMOTION_SAMPLES: nat := 3
  const CONSISTENCY: real := 1.0
  const LEARNED_SAMPLES: nat := 3
  const STRONG_SAMPLES: nat := 8

  const NUL: char := '\0'

  function KeyString(key: ProfileKey): string {
    key.application + [NUL] + (key.role + [NUL] + ((if key.subrole.Some? then key.subrole.value else "") + [NUL] + key.context))
  }

  function ConfidenceFor(samples: nat): Confidence {
    if samples >= STRONG_SAMPLES then Strong else if samples >= LEARNED_SAMPLES then Learned else Tentative
  }

  // ---------------------------------------------------------------- promotion

  datatype Candidate = Candidate(bound: Bound, value: real)

  function MaxReal(a: real, b: real): real { if a >= b then a else b }

  function MinReal(a: real, b: real): real { if a <= b then a else b }

  function Highest(samples: seq<real>): real
    requires samples != []
  {
    if |samples| == 1 then samples[0] else MaxReal(samples[0], Highest(samples[1..]))
  }

  function Lowest(samples: seq<real>): real
    requires samples != []
  {
    if |samples| == 1 then samples[0] else MinReal(samples[0], Lowest(samples[1..]))
  }

  function SamplesFor(buckets: Buckets, bound: Bound): seq<real> {
    if bound in buckets then buckets[bound] else []
  }

  predicate Consistent(samples: seq<real>)
    requires samples != []
  {
    Highest(samples) - Lowest(samples) <= CONSISTENCY
  }

  /** One more sample for a bound: kept while few, thinned while inconsistent, promoted otherwise. */
  function Feed(buckets: Buckets, c: Candidate): (Buckets, bool) {
    var samples := SamplesFor(buckets, c.bound) + [c.value];
    if |samples| < PROMOTION_SAMPLES then (buckets[c.bound := samples], false)
    else if !Consistent(samples) then (buckets[c.bound := samples[|samples| - (PROMOTION_SAMPLES - 1)..]], false)
    else (buckets[c.bound := []], true)
  }

  function FeedAll(buckets: Buckets, candidates: seq<Candidate>): (Buckets, seq<Candidate>)
  {
    if candidates == [] then (buckets, []) else
      var n := |candidates| - 1;
      var (fed, promoted) := FeedAll(buckets, candidates[..n]);
      var (next, hit) := Feed(fed, candidates[n]);
      (next, if hit then promoted + [candidates[n]] else promoted)
  }

  /** Monotone tightening: minimums only rise, maximums only fall. */
  function WithBound(c: Constraints, candidate: Candidate): Constraints {
    var v := candidate.value;
    match candidate.bound
    case WidthMin => c.(minWidth := Some(if c.minWidth.None? then v else MaxReal(c.minWidth.value, v)))
    case WidthMax => c.(maxWidth := Some(if c.maxWidth.None? then v else MinReal(c.maxWidth.value, v)))
    case HeightMin => c.(minHeight := Some(if c.minHeight.None? then v else MaxReal(c.minHeight.value, v)))
    case HeightMax => c.(maxHeight := Some(if c.maxHeight.None? then v else MinReal(c.maxHeight.value, v)))
  }

  function WithBounds(c: Constraints, promoted: seq<Candidate>): Constraints
    decreases |promoted|
  {
    if promoted == [] then c else WithBounds(WithBound(c, promoted[0]), promoted[1..])
  }

  predicate NoLooserMin(before: Option<real>, after: Option<real>) {
    before.Some? ==> after.Some? && after.value >= before.value
  }

  predicate NoLooserMax(before: Option<real>, after: Option<real>) {
    before.Some? ==> after.Some? && after.value <= before.value
  }

  /** Promotion never loosens or drops a learned bound, whatever evidence arrives. */
  lemma {:induction false} PromotionOnlyTightens(c: Constraints, promoted: seq<Candidate>)
    ensures var d := WithBounds(c, promoted);
            && NoLooserMin(c.minWidth, d.minWidth) && NoLooserMax(c.maxWidth, d.maxWidth)
            && NoLooserMin(c.minHeight, d.minHeight) && NoLooserMax(c.maxHeight, d.maxHeight)
    decreases |promoted|
  {
    if promoted != [] {
      PromotionOnlyTightens(WithBound(c, promoted[0]), promoted[1..]);
    }
  }

  function RecordCandidates(store: Store, key: ProfileKey, candidates: seq<Candidate>): Store {
    if candidates == [] then store else
      var k := KeyString(key);
      var (buckets, promoted) := FeedAll(if k in store.pending then store.pending[k] else map[], candidates);
      Store(if promoted == [] then store.profiles else store.profiles[k := Promote(store, key, promoted)],
            store.pending[k := buckets])
  }

  function Promote(store: Store, key: ProfileKey, promoted: seq<Candidate>): Profile {
    var k := KeyString(key);
    var known := k in store.profiles;
    var samples := (if known then store.profiles[k].sampleCount else 0) + |promoted| * PROMOTION_SAMPLES;
    Profile(key, WithBounds(if known then store.profiles[k].constraints else NO_CONSTRAINTS, promoted), samples,
            ConfidenceFor(samples), if known then store.profiles[k].correctiveAttempts else 0,
            known && store.profiles[k].cooperative)
  }

  /** The loop over a batch of candidates. */
  method FeedBuckets(buckets: Buckets, candidates: seq<Candidate>) returns (fed: Buckets, promoted: seq<Candidate>)
    ensures (fed, promoted) == FeedAll(buckets, candidates)
  {
    fed, promoted := buckets, [];
    for i := 0 to |candidates|
      invariant (fed, promoted) == FeedAll(buckets, candidates[..i])
    {
      assert candidates[..i + 1][..i] == candidates[..i];
      var c := candidates[i];
      var samples := SamplesFor(fed, c.bound) + [c.value];
      if |samples| < PROMOTION_SAMPLES {
        fed := fed[c.bound := samples];
      } else if !Consistent(samples) {
        fed := fed[c.bound := samples[|samples| - (PROMOTION_SAMPLES - 1)..]];
      } else {
        fed := fed[c.bound := []];
        promoted := promoted + [c];
      }
    }
    assert candidates[..|candidates|] == candidates;
  }

  // ---------------------------------------------------------------- the other updates

  function Present(o: Option<real>): nat { if o.Some? then 1 else 0 }

  function BoundCount(c: Constraints): nat {
    Present(c.minWidth) + Present(c.maxWidth) + Present(c.minHeight) + Present(c.maxHeight)
  }

  /** Verified bounds replace the measured ones at once. */
  function SetVerified(store: Store, key: ProfileKey, constraints: Constraints): Store {
    var k := KeyString(key);
    var known := k in store.profiles;
    store.(profiles := store.profiles[k := Profile(key, constraints,
      (if known then store.profiles[k].sampleCount else 0) + BoundCount(constraints), Strong,
      if known then store.profiles[k].correctiveAttempts else 0, known && store.profiles[k].cooperative)])
  }

  predicate BelowMin(value: real, min: Option<real>, tolerance: real) {
    min.Some? && value < min.value - tolerance
  }

  predicate AboveMax(value: real, max: Option<real>, tolerance: real) {
    max.Some? && value > max.value + tolerance
  }

  /** The bounds an exactly observed size contradicts. */
  function Contradictions(c: Constraints, width: real, height: real, tolerance: real): seq<Candidate> {
    (if BelowMin(width, c.minWidth, tolerance) then [Candidate(WidthMin, width)] else [])
    + (if AboveMax(width, c.maxWidth, tolerance) then [Candidate(WidthMax, width)] else [])
    + (if BelowMin(height, c.minHeight, tolerance) then [Candidate(HeightMin, height)] else [])
    + (if AboveMax(height, c.maxHeight, tolerance) then [Candidate(HeightMax, height)] else [])
  }

  function ReplaceBound(c: Constraints, candidate: Candidate): Constraints {
    match candidate.bound
    case WidthMin => c.(minWidth := Some(candidate.value))
    case WidthMax => c.(maxWidth := Some(candidate.value))
    case HeightMin => c.(minHeight := Some(candidate.value))
    case HeightMax => c.(maxHeight := Some(candidate.value))
  }

  function ReplaceBounds(c: Constraints, found: seq<Candidate>): Constraints
    decreases |found|
  {
    if found == [] then c else ReplaceBounds(ReplaceBound(c, found[0]), found[1..])
  }

  function ClearBuckets(buckets: Buckets, found: seq<Candidate>): Buckets
    decreases |found|
  {
    if found == [] then buckets else ClearBuckets(buckets[found[0].bound := []], found[1..])
  }

  function NoteExactFrame(store: Store, key: ProfileKey, width: real, height: real, tolerance: real): Store {
    var k := KeyString(key);
    if k !in store.profiles then store else
      var profile := store.profiles[k];
      var found := Contradictions(profile.constraints, width, height, tolerance);
      if found == [] then store else
        var samples := profile.sampleCount + |found|;
        Store(store.profiles[k := profile.(constraints := ReplaceBounds(profile.constraints, found),
                                           sampleCount := samples, confidence := ConfidenceFor(samples))],
              store.pending[k := ClearBuckets(if k in store.pending then store.pending[k] else map[], found)])
  }

  function MarkCooperation(store: Store, key: ProfileKey, corrective: bool): Store {
    var k := KeyString(key);
    if k in store.profiles then
      var p := store.profiles[k];
      store.(profiles := store.profiles[k := if corrective
        then p.(correctiveAttempts := p.correctiveAttempts + 1, cooperative := true) else p])
    else if corrective then
      store.(profiles := store.profiles[k := Profile(key, NO_CONSTRAINTS, 0, Tentative, 1, true)])
    else store
  }

  /** After an exact observation no contradicted bound is left standing. */
  lemma ContradictionsAreResolved(c: Constraints, width: real, height: real, tolerance: real)
    requires tolerance >= 0.0
    ensures Contradictions(ReplaceBounds(c, Contradictions(c, width, height, tolerance)), width, height, tolerance) == []
  {
    var found := Contradictions(c, width, height, tolerance);
    var w1 := if BelowMin(width, c.minWidth, tolerance) then [Candidate(WidthMin, width)] else [];
    var w2 := if AboveMax(width, c.maxWidth, tolerance) then [Candidate(WidthMax, width)] else [];
    var h1 := if BelowMin(height, c.minHeight, tolerance) then [Candidate(HeightMin, height)] else [];
    var h2 := if AboveMax(height, c.maxHeight, tolerance) then [Candidate(HeightMax, height)] else [];
    assert found == w1 + (w2 + (h1 + h2));
    ReplaceOfConcat(c, w1, w2 + (h1 + h2));
    ReplaceOfConcat(ReplaceBounds(c, w1), w2, h1 + h2);
    ReplaceOfConcat(ReplaceBounds(ReplaceBounds(c, w1), w2), h1, h2);
    ReplaceOne(c, w1);
    ReplaceOne(ReplaceBounds(c, w1), w2);
    ReplaceOne(ReplaceBounds(ReplaceBounds(c, w1), w2), h1);
    ReplaceOne(ReplaceBounds(ReplaceBounds(ReplaceBounds(c, w1), w2), h1), h2);
  }

  lemma ReplaceOne(c: Constraints, found: seq<Candidate>)
    requires |found| <= 1
    ensures ReplaceBounds(c, found) == if found == [] then c else ReplaceBound(c, found[0])
  {
    if found != [] {
      assert found[1..] == [];
    }
  }

  lemma {:induction false} ReplaceOfConcat(c: Constraints, a: seq<Candidate>, b: seq<Candidate>)
    ensures ReplaceBounds(c, a + b) == ReplaceBounds(ReplaceBounds(c, a), b)
    decreases |a|
  {
    if a == [] {
      assert a + b == b;
    } else {
      assert (a + b)[1..] == a[1..] + b;
      ReplaceOfConcat(ReplaceBound(c, a[0]), a[1..], b);
    }
  }

  // ---------------------------------------------------------------- every reachable store

  datatype Update =
    | Record(key: ProfileKey, candidates: seq<Candidate>)
    | Exact(key: ProfileKey, width: real, height: real, tolerance: real)
    | Verified(key: ProfileKey, constraints: Constraints)
    | Cooperation(key: ProfileKey, corrective: bool)

  function Apply(store: Store, u: Update): Store {
    match u
    case Record(key, candidates) => RecordCandidates(store, key, candidates)
    case Exact(key, width, height, tolerance) => NoteExactFrame(store, key, width, height, tolerance)
    case Verified(key, constraints) => SetVerified(store, key, constraints)
    case Cooperation(key, corrective) => MarkCooperation(store, key, corrective)
  }

  function Run(updates: seq<Update>): Store {
    if updates == [] then EMPTY_STORE
    else Apply(Run(updates[..|updates| - 1]), updates[|updates| - 1])
  }

  /** No NUL and not empty: what a stored key component must be. */
  predicate ValidText(s: string) {
    s != "" && NUL !in s
  }

  predicate ValidKey(key: ProfileKey) {
    && ValidText(key.application) && ValidText(key.role) && ValidText(key.context)
    && (key.subrole.Some? ==> ValidText(key.subrole.value))
  }

  ghost predicate FewSamples(buckets: Buckets) {
    forall b :: b in buckets ==> |buckets[b]| < PROMOTION_SAMPLES
  }

  ghost predicate FromValidKey(k: string) {
    exists key :: ValidKey(key) && KeyString(key) == k
  }

  /** Profiles are filed under their own valid keys, evidence under the string of some valid key, and every
      bucket holds less than what a promotion takes. */
  ghost predicate Filed(store: Store) {
    && (forall k :: k in store.profiles ==> ValidKey(store.profiles[k].key) && KeyString(store.profiles[k].key) == k)
    && (forall k :: k in store.pending ==> FromValidKey(k) && FewSamples(store.pending[k]))
  }

  lemma {:induction false} FeedKeepsFew(buckets: Buckets, candidates: seq<Candidate>)
    requires FewSamples(buckets)
    ensures FewSamples(FeedAll(buckets, candidates).0)
  {
    if candidates != [] {
      FeedKeepsFew(buckets, candidates[..|candidates| - 1]);
    }
  }

  lemma {:induction false} ClearKeepsFew(buckets: Buckets, found: seq<Candidate>)
    requires FewSamples(buckets)
    ensures FewSamples(ClearBuckets(buckets, found))
    decreases |found|
  {
    if found != [] {
      ClearKeepsFew(buckets[found[0].bound := []], found[1..]);
    }
  }

  lemma ApplyKeepsFiled(store: Store, u: Update)
    requires Filed(store) && ValidKey(u.key)
    ensures Filed(Apply(store, u))
  {
    hide FeedAll, ClearBuckets, KeyString, WithBounds, ReplaceBounds, Contradictions, ValidKey;
    var k := KeyString(u.key);
    assert FromValidKey(k);
    var buckets := if k in store.pending then store.pending[k] else map[];
    match u
    case Record(_, candidates) => FeedKeepsFew(buckets, candidates);
    case Exact(_, width, height, tolerance) =>
      if k in store.profiles {
        ClearKeepsFew(buckets, Contradictions(store.profiles[k].constraints, width, height, tolerance));
      }
    case Verified(_, _) =>
    case Cooperation(_, _) =>
  }

  /** Every store reached from nothing by updates to valid keys is well filed. */
  lemma {:induction false} ReachableIsFiled(updates: seq<Update>)
    requires forall i :: 0 <= i < |updates| ==> ValidKey(updates[i].key)
    ensures Filed(Run(updates))
  {
    hide Filed, Apply, ValidKey;
    if updates == [] {
      NothingIsFiled();
    } else {
      ReachableIsFiled(updates[..|updates| - 1]);
      ApplyKeepsFiled(Run(updates[..|updates| - 1]), updates[|updates| - 1]);
    }
  }

  lemma NothingIsFiled()
    ensures Filed(EMPTY_STORE)
  {
  }
}
