/** What each kind of evidence does to what is known of a window's limits, bound by bound. */
module LearningLaws {
  import opened Geometry
  import opened Learning

  function BoundOf(c: Constraints, b: Bound): Option<real> {
    match b
    case WidthMin => c.minWidth
    case WidthMax => c.maxWidth
    case HeightMin => c.minHeight
    case HeightMax => c.maxHeight
  }

  predicate IsMin(b: Bound) { b == WidthMin || b == HeightMin }

  /** The samples waiting for a bound, none where there is no bucket. */
  function Waiting(buckets: Buckets, b: Bound): seq<real> {
    if b in buckets then buckets[b] else []
  }

  // ---------------------------------------------------------------- one sample after another

  /** Three samples at least, no two more than a point apart. */
  ghost predicate Agreeing(samples: seq<real>) {
    |samples| >= 3 && forall x, y :: x in samples && y in samples ==> x - y <= 1.0
  }

  lemma {:induction false} HighestIs(samples: seq<real>)
    requires samples != []
    ensures Highest(samples) in samples && forall x :: x in samples ==> x <= Highest(samples)
  {
    assert samples == [samples[0]] + samples[1..];
    if |samples| > 1 {
      HighestIs(samples[1..]);
    }
  }

  lemma {:induction false} LowestIs(samples: seq<real>)
    requires samples != []
    ensures Lowest(samples) in samples && forall x :: x in samples ==> Lowest(samples) <= x
  {
    assert samples == [samples[0]] + samples[1..];
    if |samples| > 1 {
      LowestIs(samples[1..]);
    }
  }

  /** The buckets and the promotions before and after one more candidate. */
  ghost predicate Judged(before: Buckets, promoted: seq<Candidate>, c: Candidate, later: Buckets, promotedLater: seq<Candidate>) {
    var evidence := Waiting(before, c.bound) + [c.value];
    && (forall b :: b != c.bound ==> Waiting(later, b) == Waiting(before, b))
    && (if Agreeing(evidence) then Waiting(later, c.bound) == [] && promotedLater == promoted + [c]
        else Waiting(later, c.bound) == evidence[Max(0, |evidence| - 2)..] && promotedLater == promoted)
  }

  /** Candidates are judged in turn. One whose bound has three samples or more that agree, its own among them, is
      promoted and the samples are spent; else nothing is promoted and the latest two samples wait for a third. */
  lemma CandidatesAreJudgedInTurn(buckets: Buckets, candidates: seq<Candidate>, n: nat)
    requires n < |candidates|
    ensures FeedAll(buckets, []) == (buckets, [])
    ensures var (before, promoted) := FeedAll(buckets, candidates[..n]);
            var (later, promotedLater) := FeedAll(buckets, candidates[..n + 1]);
            Judged(before, promoted, candidates[n], later, promotedLater)
  {
    var c := candidates[n];
    var (before, promoted) := FeedAll(buckets, candidates[..n]);
    assert candidates[..n + 1][..n] == candidates[..n];
    JudgedOnce(before, promoted, c);
  }

  lemma JudgedOnce(before: Buckets, promoted: seq<Candidate>, c: Candidate)
    ensures var (later, hit) := Feed(before, c); Judged(before, promoted, c, later, if hit then promoted + [c] else promoted)
  {
    var evidence := Waiting(before, c.bound) + [c.value];
    HighestIs(evidence);
    LowestIs(evidence);
    assert |evidence| < 3 ==> evidence[Max(0, |evidence| - 2)..] == evidence;
  }

  // ---------------------------------------------------------------- promotion

  /** `value` is the tightest of `known` and the promoted values of the bound. */
  ghost predicate Tightest(known: Option<real>, promoted: seq<Candidate>, b: Bound, bound: Option<real>) {
    && (bound.None? <==> known.None? && forall c :: c in promoted ==> c.bound != b)
    && (bound.Some? ==>
          && (known == bound || Candidate(b, bound.value) in promoted)
          && (known.Some? ==> AtLeastAsTight(bound.value, known.value, b))
          && (forall c :: c in promoted && c.bound == b ==> AtLeastAsTight(bound.value, c.value, b)))
  }

  predicate AtLeastAsTight(x: real, y: real, b: Bound) { if IsMin(b) then x >= y else x <= y }

  lemma {:induction false} PromotedAreTightest(c: Constraints, promoted: seq<Candidate>, b: Bound)
    ensures Tightest(BoundOf(c, b), promoted, b, BoundOf(WithBounds(c, promoted), b))
    decreases |promoted|
  {
    if promoted != [] {
      PromotedAreTightest(WithBound(c, promoted[0]), promoted[1..], b);
      assert promoted == [promoted[0]] + promoted[1..];
      TightestStep(c, promoted[0], promoted[1..], b, BoundOf(WithBounds(c, promoted), b));
    }
  }

  lemma TightestStep(c: Constraints, first: Candidate, rest: seq<Candidate>, b: Bound, bound: Option<real>)
    requires Tightest(BoundOf(WithBound(c, first), b), rest, b, bound)
    ensures Tightest(BoundOf(c, b), [first] + rest, b, bound)
  {
    assert first in [first] + rest;
    forall x ensures x in [first] + rest <==> x == first || x in rest {
    }
  }

  /** Eight samples make a profile strong, three make it learned. */
  predicate ConfidenceFits(samples: nat, confidence: Confidence) {
    && (confidence == Strong <==> samples >= 8)
    && (confidence == Tentative <==> samples < 3)
  }

  /** Nothing else is touched. */
  ghost predicate OnlyKey(store: Store, later: Store, k: string) {
    && (forall j :: j != k ==> (j in later.profiles <==> j in store.profiles) && (j in later.pending <==> j in store.pending))
    && (forall j :: j != k && j in store.profiles ==> later.profiles[j] == store.profiles[j])
    && (forall j :: j != k && j in store.pending ==> later.pending[j] == store.pending[j])
  }

  function Known(store: Store, key: ProfileKey): Profile {
    if KeyString(key) in store.profiles then store.profiles[KeyString(key)] else Profile(key, NO_CONSTRAINTS, 0, Tentative, 0, false)
  }

  function Evidence(store: Store, key: ProfileKey): Buckets {
    if KeyString(key) in store.pending then store.pending[KeyString(key)] else map[]
  }

  /** Recorded candidates are judged; each one promoted counts three samples and tightens its bound. */
  lemma RecordingPromotes(store: Store, key: ProfileKey, candidates: seq<Candidate>)
    ensures var later, k := RecordCandidates(store, key, candidates), KeyString(key);
            var (buckets, promoted) := FeedAll(Evidence(store, key), candidates);
            && OnlyKey(store, later, k)
            && Evidence(later, key) == buckets
            && (promoted == [] ==> later.profiles == store.profiles)
            && (promoted != [] ==>
                  k in later.profiles
                  && var p, was := later.profiles[k], Known(store, key);
                     && p.key == key && p.sampleCount == was.sampleCount + 3 * |promoted| && ConfidenceFits(p.sampleCount, p.confidence)
                     && p.correctiveAttempts == was.correctiveAttempts && p.cooperative == was.cooperative
                     && forall b :: Tightest(BoundOf(was.constraints, b), promoted, b, BoundOf(p.constraints, b)))
  {
    hide FeedAll, WithBounds, KeyString, Tightest;
    assert FeedAll(Evidence(store, key), []) == (Evidence(store, key), []) by { FedNothing(Evidence(store, key)); }
    var (buckets, promoted) := FeedAll(Evidence(store, key), candidates);
    forall b ensures Tightest(BoundOf(Known(store, key).constraints, b), promoted, b,
                              BoundOf(WithBounds(Known(store, key).constraints, promoted), b)) {
      PromotedAreTightest(Known(store, key).constraints, promoted, b);
    }
  }

  lemma FedNothing(buckets: Buckets)
    ensures FeedAll(buckets, []) == (buckets, [])
  {
  }

  // ---------------------------------------------------------------- contradiction

  predicate Contradicted(c: Constraints, b: Bound, width: real, height: real, tolerance: real) {
    var size := SizeFor(b, width, height);
    && BoundOf(c, b).Some?
    && if IsMin(b) then size < BoundOf(c, b).value - tolerance else size > BoundOf(c, b).value + tolerance
  }

  function SizeFor(b: Bound, width: real, height: real): real { if b == WidthMin || b == WidthMax then width else height }

  function One(b: bool): nat { if b then 1 else 0 }

  /** A known window seen at an exact size: every bound it contradicts becomes that size and loses its waiting samples,
      and counts one sample; every other bound and its samples stay. */
  lemma ExactSizeReplacesWhatItContradicts(store: Store, key: ProfileKey, width: real, height: real, tolerance: real)
    ensures var later, k := NoteExactFrame(store, key, width, height, tolerance), KeyString(key);
            && OnlyKey(store, later, k)
            && (k !in store.profiles ==> later == store)
            && (k in store.profiles ==>
                  k in later.profiles
                  && var p, was := later.profiles[k], store.profiles[k];
                     var hit := (b: Bound) => Contradicted(was.constraints, b, width, height, tolerance);
                     && p.key == was.key && p.correctiveAttempts == was.correctiveAttempts && p.cooperative == was.cooperative
                     && p.sampleCount == was.sampleCount + One(hit(WidthMin)) + One(hit(WidthMax)) + One(hit(HeightMin)) + One(hit(HeightMax))
                     && (p.sampleCount == was.sampleCount ==> later == store)
                     && (p.sampleCount > was.sampleCount ==> ConfidenceFits(p.sampleCount, p.confidence))
                     && forall b ::
                          && BoundOf(p.constraints, b) == (if hit(b) then Some(SizeFor(b, width, height)) else BoundOf(was.constraints, b))
                          && Waiting(Evidence(later, key), b) == if hit(b) then [] else Waiting(Evidence(store, key), b))
  {
    hide KeyString, Contradictions, ReplaceBounds, ClearBuckets;
    var k := KeyString(key);
    if k in store.profiles {
      var was := store.profiles[k];
      FoundAre(was.constraints, Evidence(store, key), width, height, tolerance);
    }
  }

  lemma FoundAre(c: Constraints, buckets: Buckets, width: real, height: real, tolerance: real)
    ensures var found := Contradictions(c, width, height, tolerance);
            var hit := (b: Bound) => Contradicted(c, b, width, height, tolerance);
            && |found| == One(hit(WidthMin)) + One(hit(WidthMax)) + One(hit(HeightMin)) + One(hit(HeightMax))
            && (found == [] ==> forall b :: !hit(b))
            && forall b ::
                 && BoundOf(ReplaceBounds(c, found), b) == (if hit(b) then Some(SizeFor(b, width, height)) else BoundOf(c, b))
                 && Waiting(ClearBuckets(buckets, found), b) == if hit(b) then [] else Waiting(buckets, b)
  {
    var found := Contradictions(c, width, height, tolerance);
    forall b
      ensures BoundOf(ReplaceBounds(c, found), b)
              == if Contradicted(c, b, width, height, tolerance) then Some(SizeFor(b, width, height)) else BoundOf(c, b)
      ensures Waiting(ClearBuckets(buckets, found), b)
              == if Contradicted(c, b, width, height, tolerance) then [] else Waiting(buckets, b)
    {
      FoundHolds(c, b, width, height, tolerance);
      hide Contradictions;
      ReplacedBound(c, buckets, found, b, SizeFor(b, width, height));
    }
  }

  lemma FoundHolds(c: Constraints, b: Bound, width: real, height: real, tolerance: real)
    ensures var found := Contradictions(c, width, height, tolerance);
            && (Contradicted(c, b, width, height, tolerance) <==> exists x :: x in found && x.bound == b)
            && forall x :: x in found && x.bound == b ==> x.value == SizeFor(b, width, height)
  {
    var found := Contradictions(c, width, height, tolerance);
    if Contradicted(c, b, width, height, tolerance) {
      assert Candidate(b, SizeFor(b, width, height)) in found;
    }
  }

  lemma {:induction false} ReplacedBound(c: Constraints, buckets: Buckets, found: seq<Candidate>, b: Bound, size: real)
    requires forall x :: x in found && x.bound == b ==> x.value == size
    ensures var hit := exists x :: x in found && x.bound == b;
            && BoundOf(ReplaceBounds(c, found), b) == (if hit then Some(size) else BoundOf(c, b))
            && Waiting(ClearBuckets(buckets, found), b) == if hit then [] else Waiting(buckets, b)
    decreases |found|
  {
    if found != [] {
      ReplacedBound(ReplaceBound(c, found[0]), buckets[found[0].bound := []], found[1..], b, size);
      assert found == [found[0]] + found[1..];
      assert found[0] in found;
    }
  }

  // ---------------------------------------------------------------- the other updates

  /** Verified bounds replace all four at once, count a sample each and are strong; nothing waiting is touched. */
  lemma VerifiedReplaces(store: Store, key: ProfileKey, constraints: Constraints)
    ensures var later, k, was := SetVerified(store, key, constraints), KeyString(key), Known(store, key);
            && OnlyKey(store, later, k) && later.pending == store.pending && k in later.profiles
            && later.profiles[k] == Profile(key, constraints, was.sampleCount + One(constraints.minWidth.Some?)
                 + One(constraints.maxWidth.Some?) + One(constraints.minHeight.Some?) + One(constraints.maxHeight.Some?),
                 Strong, was.correctiveAttempts, was.cooperative)
  {
    hide KeyString;
  }

  /** Cooperation changes only the two fields about it, and only where correction was needed. */
  lemma CooperationIsNoted(store: Store, key: ProfileKey, corrective: bool)
    ensures var later, k, was := MarkCooperation(store, key, corrective), KeyString(key), Known(store, key);
            if !corrective then later == store
            else OnlyKey(store, later, k) && later.pending == store.pending && k in later.profiles
                 && later.profiles[k] == was.(correctiveAttempts := was.correctiveAttempts + 1, cooperative := true)
  {
    hide KeyString;
  }
}
