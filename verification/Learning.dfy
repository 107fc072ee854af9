/** Learning from run outcomes: failure patterns that grow in place, and adapter reliability that is
    rebuilt from all outcomes. */
module Learning {
  import opened Options
  import opened Records
  import opened Rounding

  datatype RunOutcome = RunOutcome(
    success: bool, retryCount: nat, qualityScore: real, adaptersUsed: seq<string>, dominantFailureType: Option<string>)

  /** Lower-casing is a parameter of everything that compares pattern ids. */
  type LowerCase = string -> string

  // ---- Failure patterns ----

  datatype FailurePattern = FailurePattern(id: string, adapterId: string, failureType: string, confidence: real, occurrences: nat)

  function PatternKey(p: FailurePattern): string { p.id }

  function PatternId(lower: LowerCase, adapterId: string, failureType: string): string {
    lower(adapterId + "::" + failureType)
  }

  function FirstAdapter(o: RunOutcome): string {
    if o.adaptersUsed == [] then "unknown" else o.adaptersUsed[0]
  }

  /** The pattern that an outcome belongs to: only a failed one with a named failure type has one. */
  function PatternOf(lower: LowerCase, o: RunOutcome): Option<string> {
    if o.success || o.dominantFailureType.None? || o.dominantFailureType.value == "" then None
    else Some(PatternId(lower, FirstAdapter(o), o.dominantFailureType.value))
  }

  /** How many outcomes belong to a pattern. */
  function Count(lower: LowerCase, outcomes: seq<RunOutcome>, id: string): nat
    decreases |outcomes|
  {
    if outcomes == [] then 0
    else
      Count(lower, outcomes[..|outcomes| - 1], id) + if PatternOf(lower, outcomes[|outcomes| - 1]) == Some(id) then 1 else 0
  }

  /** 0.55 for the first occurrence and 0.05 more for each further one, up to 0.95. */
  function ConfidenceAfter(occurrences: nat): real
    requires occurrences > 0
  {
    var c := 0.55 + 0.05 * (occurrences - 1) as real;
    if c < 0.95 then c else 0.95
  }

  function NextConfidence(confidence: real): real {
    Fixed3(if confidence + 0.05 < 0.95 then confidence + 0.05 else 0.95)
  }

  /** The rounding at each step never shows. */
  lemma NextConfidenceIsExact(occurrences: nat)
    requires occurrences > 0
    ensures NextConfidence(ConfidenceAfter(occurrences)) == ConfidenceAfter(occurrences + 1)
  {
    var n: nat := if occurrences < 8 then 550 + 50 * occurrences else 950;
    Fixed3Keeps(n);
    assert n as real / 1000.0 == ConfidenceAfter(occurrences + 1);
  }

  function NextPattern(lower: LowerCase, patterns: seq<FailurePattern>, n: nat, o: RunOutcome): FailurePattern
    requires n <= |patterns| && PatternOf(lower, o).Some?
  {
    if n == |patterns| then
      FailurePattern(PatternOf(lower, o).value, FirstAdapter(o), o.dominantFailureType.value, 0.55, 1)
    else
      var p := patterns[n];
      p.(confidence := NextConfidence(p.confidence), occurrences := p.occurrences + 1)
  }

  function UpdatedPatterns(lower: LowerCase, patterns: seq<FailurePattern>, o: RunOutcome): seq<FailurePattern> {
    match PatternOf(lower, o)
    case None => patterns
    case Some(id) =>
      var n := IndexOf(patterns, PatternKey, id, 0);
      Put(patterns, n, NextPattern(lower, patterns, n, o))
  }

  ghost predicate PatternAgrees(lower: LowerCase, p: FailurePattern, outcomes: seq<RunOutcome>) {
    && p.occurrences == Count(lower, outcomes, p.id) > 0
    && p.confidence == ConfidenceAfter(p.occurrences)
  }

  /** There is one pattern for each id that a failed outcome has, and it counts these outcomes. */
  ghost predicate PatternsAgree(lower: LowerCase, patterns: seq<FailurePattern>, outcomes: seq<RunOutcome>) {
    && Distinct(patterns, PatternKey)
    && (forall i | 0 <= i < |patterns| :: PatternAgrees(lower, patterns[i], outcomes))
    && (forall k | 0 <= k < |outcomes| ::
          PatternOf(lower, outcomes[k]).Some? ==> PatternOf(lower, outcomes[k]).value in Keys(patterns, PatternKey))
  }

  lemma CountSnoc(lower: LowerCase, outcomes: seq<RunOutcome>, o: RunOutcome, id: string)
    ensures Count(lower, outcomes + [o], id) == Count(lower, outcomes, id) + if PatternOf(lower, o) == Some(id) then 1 else 0
  {
    assert (outcomes + [o])[..|outcomes|] == outcomes;
  }

  lemma {:induction false} NeverCounted(lower: LowerCase, outcomes: seq<RunOutcome>, id: string)
    requires forall k | 0 <= k < |outcomes| :: PatternOf(lower, outcomes[k]) != Some(id)
    ensures Count(lower, outcomes, id) == 0
    decreases |outcomes|
  {
    if outcomes != [] {
      NeverCounted(lower, outcomes[..|outcomes| - 1], id);
    }
  }

  lemma NextPatternAgrees(lower: LowerCase, patterns: seq<FailurePattern>, outcomes: seq<RunOutcome>, o: RunOutcome)
    requires PatternsAgree(lower, patterns, outcomes) && PatternOf(lower, o).Some?
    ensures var id := PatternOf(lower, o).value;
      var p := NextPattern(lower, patterns, IndexOf(patterns, PatternKey, id, 0), o);
      p.id == id && PatternAgrees(lower, p, outcomes + [o])
  {
    var id := PatternOf(lower, o).value;
    var n := IndexOf(patterns, PatternKey, id, 0);
    CountSnoc(lower, outcomes, o, id);
    if n == |patterns| {
      forall k | 0 <= k < |outcomes| ensures PatternOf(lower, outcomes[k]) != Some(id) {
        assert id !in Keys(patterns, PatternKey);
      }
      NeverCounted(lower, outcomes, id);
    } else {
      assert PatternAgrees(lower, patterns[n], outcomes);
      NextConfidenceIsExact(patterns[n].occurrences);
    }
  }

  /** Learning one more outcome keeps the patterns in agreement with all outcomes. */
  lemma UpdatedPatternsAgree(lower: LowerCase, patterns: seq<FailurePattern>, outcomes: seq<RunOutcome>, o: RunOutcome)
    requires PatternsAgree(lower, patterns, outcomes)
    ensures PatternsAgree(lower, UpdatedPatterns(lower, patterns, o), outcomes + [o])
  {
    var after := UpdatedPatterns(lower, patterns, o);
    if PatternOf(lower, o).Some? {
      var id := PatternOf(lower, o).value;
      var n := IndexOf(patterns, PatternKey, id, 0);
      var p := NextPattern(lower, patterns, n, o);
      NextPatternAgrees(lower, patterns, outcomes, o);
      PutKeeps(patterns, PatternKey, p);
      PutCovers(patterns, PatternKey, p);
      forall i | 0 <= i < |after| ensures PatternAgrees(lower, after[i], outcomes + [o]) {
        if i != n {
          assert PatternKey(patterns[i]) != id && PatternAgrees(lower, patterns[i], outcomes);
          CountSnoc(lower, outcomes, o, patterns[i].id);
        }
      }
    } else {
      forall i | 0 <= i < |after| ensures PatternAgrees(lower, after[i], outcomes + [o]) {
        assert PatternAgrees(lower, patterns[i], outcomes);
        CountSnoc(lower, outcomes, o, patterns[i].id);
      }
    }
  }

  /** The patterns after any series of outcomes. */
  function PatternsAfter(lower: LowerCase, outcomes: seq<RunOutcome>): seq<FailurePattern>
    decreases |outcomes|
  {
    if outcomes == [] then []
    else UpdatedPatterns(lower, PatternsAfter(lower, outcomes[..|outcomes| - 1]), outcomes[|outcomes| - 1])
  }

  /** After any series of outcomes the patterns agree with all of them. */
  lemma {:induction false} PatternsAfterAgree(lower: LowerCase, outcomes: seq<RunOutcome>)
    ensures PatternsAgree(lower, PatternsAfter(lower, outcomes), outcomes)
    decreases |outcomes|
  {
    if outcomes != [] {
      var n := |outcomes| - 1;
      PatternsAfterAgree(lower, outcomes[..n]);
      UpdatedPatternsAgree(lower, PatternsAfter(lower, outcomes[..n]), outcomes[..n], outcomes[n]);
      assert outcomes == outcomes[..n] + [outcomes[n]];
    }
  }

  /** After a failure that is named, its pattern is there, under adapter and failure type in lower case; the adapter is
      the first one that was used. */
  lemma FailureHasPattern(lower: LowerCase, outcomes: seq<RunOutcome>, o: RunOutcome, failure: string)
    requires !o.success && o.dominantFailureType == Some(failure) && failure != ""
    ensures var adapter := if |o.adaptersUsed| == 0 then "unknown" else o.adaptersUsed[0];
      lower(adapter + "::" + failure) in Keys(PatternsAfter(lower, outcomes + [o]), PatternKey)
  {
    PatternsAfterAgree(lower, outcomes + [o]);
    assert (outcomes + [o])[|outcomes|] == o;
  }

  /** An outcome that succeeded, or whose failure has no name, changes no pattern. */
  lemma NoFailureNoPattern(lower: LowerCase, outcomes: seq<RunOutcome>, o: RunOutcome)
    requires o.success || o.dominantFailureType == None || o.dominantFailureType == Some("")
    ensures PatternsAfter(lower, outcomes + [o]) == PatternsAfter(lower, outcomes)
  {
    assert (outcomes + [o])[..|outcomes|] == outcomes;
  }

  // ---- Reliability ----

  /** The outcomes of one adapter, once for each time that an outcome lists it. */
  datatype Bucket = Bucket(adapterId: string, items: seq<RunOutcome>)

  function BucketKey(b: Bucket): string { b.adapterId }

  function NextBucket(buckets: seq<Bucket>, n: nat, adapterId: string, o: RunOutcome): Bucket
    requires n <= |buckets|
  {
    Bucket(adapterId, (if n == |buckets| then [] else buckets[n].items) + [o])
  }

  function AddedTo(buckets: seq<Bucket>, adapterId: string, o: RunOutcome): seq<Bucket> {
    var n := IndexOf(buckets, BucketKey, adapterId, 0);
    Put(buckets, n, NextBucket(buckets, n, adapterId, o))
  }

  /** A use of an adapter by an outcome, in the order in which the outcomes list them. */
  datatype Use = Use(adapterId: string, outcome: RunOutcome)

  function UsesOf(o: RunOutcome, n: nat): (uses: seq<Use>)
    requires n <= |o.adaptersUsed|
    ensures |uses| == n
  {
    if n == 0 then [] else UsesOf(o, n - 1) + [Use(o.adaptersUsed[n - 1], o)]
  }

  function Uses(outcomes: seq<RunOutcome>): seq<Use>
    decreases |outcomes|
  {
    if outcomes == [] then []
    else
      var last := outcomes[|outcomes| - 1];
      Uses(outcomes[..|outcomes| - 1]) + UsesOf(last, |last.adaptersUsed|)
  }

  function BucketsOf(uses: seq<Use>): seq<Bucket>
    decreases |uses|
  {
    if uses == [] then []
    else
      var last := uses[|uses| - 1];
      AddedTo(BucketsOf(uses[..|uses| - 1]), last.adapterId, last.outcome)
  }

  /** The outcomes of an adapter's uses. */
  function OfAdapter(uses: seq<Use>, adapterId: string): seq<RunOutcome>
    decreases |uses|
  {
    if uses == [] then []
    else
      var last := uses[|uses| - 1];
      OfAdapter(uses[..|uses| - 1], adapterId) + if last.adapterId == adapterId then [last.outcome] else []
  }

  function TotalItems(buckets: seq<Bucket>): nat
    decreases |buckets|
  {
    if buckets == [] then 0 else TotalItems(buckets[..|buckets| - 1]) + |buckets[|buckets| - 1].items|
  }

  lemma {:induction false} AppendTotal(buckets: seq<Bucket>, b: Bucket)
    ensures TotalItems(buckets + [b]) == TotalItems(buckets) + |b.items|
  {
    assert (buckets + [b])[..|buckets|] == buckets;
  }

  lemma {:induction false} ReplaceTotal(buckets: seq<Bucket>, n: nat, b: Bucket)
    requires n < |buckets|
    ensures TotalItems(buckets[n := b]) == TotalItems(buckets) + |b.items| - |buckets[n].items|
    decreases |buckets|
  {
    var last := |buckets| - 1;
    var after := buckets[n := b];
    if n == last {
      assert after[..last] == buckets[..last];
    } else {
      ReplaceTotal(buckets[..last], n, b);
      assert after[..last] == buckets[..last][n := b];
    }
  }

  ghost predicate BucketsAgree(buckets: seq<Bucket>, uses: seq<Use>) {
    && Distinct(buckets, BucketKey)
    && (forall i | 0 <= i < |buckets| :: buckets[i].items == OfAdapter(uses, buckets[i].adapterId) != [])
    && (forall k | 0 <= k < |uses| :: uses[k].adapterId in Keys(buckets, BucketKey))
  }

  lemma {:induction false} NeverUsed(uses: seq<Use>, adapterId: string)
    requires forall k | 0 <= k < |uses| :: uses[k].adapterId != adapterId
    ensures OfAdapter(uses, adapterId) == []
    decreases |uses|
  {
    if uses != [] {
      NeverUsed(uses[..|uses| - 1], adapterId);
    }
  }

  lemma NextBucketAgrees(buckets: seq<Bucket>, uses: seq<Use>, use: Use)
    requires BucketsAgree(buckets, uses)
    ensures var n := IndexOf(buckets, BucketKey, use.adapterId, 0);
      NextBucket(buckets, n, use.adapterId, use.outcome).items == OfAdapter(uses + [use], use.adapterId)
  {
    var n := IndexOf(buckets, BucketKey, use.adapterId, 0);
    assert (uses + [use])[..|uses|] == uses;
    if n == |buckets| {
      forall k | 0 <= k < |uses| ensures uses[k].adapterId != use.adapterId {
        assert use.adapterId !in Keys(buckets, BucketKey);
      }
      NeverUsed(uses, use.adapterId);
    }
  }

  lemma AddedAgrees(buckets: seq<Bucket>, uses: seq<Use>, use: Use)
    requires BucketsAgree(buckets, uses)
    ensures BucketsAgree(AddedTo(buckets, use.adapterId, use.outcome), uses + [use])
  {
    var n := IndexOf(buckets, BucketKey, use.adapterId, 0);
    var b, after := NextBucket(buckets, n, use.adapterId, use.outcome), AddedTo(buckets, use.adapterId, use.outcome);
    NextBucketAgrees(buckets, uses, use);
    PutKeeps(buckets, BucketKey, b);
    PutCovers(buckets, BucketKey, b);
    assert (uses + [use])[..|uses|] == uses;
    forall i | 0 <= i < |after| ensures after[i].items == OfAdapter(uses + [use], after[i].adapterId) != [] {
      if i != n {
        assert BucketKey(buckets[i]) != use.adapterId;
      }
    }
  }

  lemma AddedTotal(buckets: seq<Bucket>, adapterId: string, o: RunOutcome)
    ensures TotalItems(AddedTo(buckets, adapterId, o)) == TotalItems(buckets) + 1
  {
    var n := IndexOf(buckets, BucketKey, adapterId, 0);
    if n == |buckets| {
      AppendTotal(buckets, NextBucket(buckets, n, adapterId, o));
    } else {
      ReplaceTotal(buckets, n, NextBucket(buckets, n, adapterId, o));
    }
  }

  /** Each adapter has one bucket, with the outcomes of its uses in order. */
  lemma {:induction false} BucketsHoldUses(uses: seq<Use>)
    ensures BucketsAgree(BucketsOf(uses), uses)
    decreases |uses|
  {
    if uses != [] {
      var before, use := uses[..|uses| - 1], uses[|uses| - 1];
      BucketsHoldUses(before);
      AddedAgrees(BucketsOf(before), before, use);
      assert uses == before + [use];
    }
  }

  /** Together the buckets hold every use once. */
  lemma {:induction false} BucketsCountUses(uses: seq<Use>)
    ensures TotalItems(BucketsOf(uses)) == |uses|
    decreases |uses|
  {
    if uses != [] {
      var before, use := uses[..|uses| - 1], uses[|uses| - 1];
      BucketsCountUses(before);
      AddedTotal(BucketsOf(before), use.adapterId, use.outcome);
    }
  }

  function TotalUses(outcomes: seq<RunOutcome>): nat
    decreases |outcomes|
  {
    if outcomes == [] then 0 else TotalUses(outcomes[..|outcomes| - 1]) + |outcomes[|outcomes| - 1].adaptersUsed|
  }

  lemma {:induction false} UsesCount(outcomes: seq<RunOutcome>)
    ensures |Uses(outcomes)| == TotalUses(outcomes)
    decreases |outcomes|
  {
    if outcomes != [] {
      UsesCount(outcomes[..|outcomes| - 1]);
    }
  }

  // ---- Scores ----

  datatype AdapterReliability = AdapterReliability(
    adapterId: string, successRate: real, avgRetries: real, reliabilityScore: real, totalRuns: nat)

  function SuccessCount(items: seq<RunOutcome>): (n: nat)
    ensures n <= |items|
    decreases |items|
  {
    if items == [] then 0
    else SuccessCount(items[..|items| - 1]) + if items[|items| - 1].success then 1 else 0
  }

  function RetrySum(items: seq<RunOutcome>): nat
    decreases |items|
  {
    if items == [] then 0 else RetrySum(items[..|items| - 1]) + items[|items| - 1].retryCount
  }

  function QualitySum(items: seq<RunOutcome>): real
    decreases |items|
  {
    if items == [] then 0.0 else QualitySum(items[..|items| - 1]) + items[|items| - 1].qualityScore
  }

  function Mean(sum: real, n: nat): real { if n == 0 then 0.0 else sum / n as real }

  function Score(successRate: real, avgRetries: real, quality: real): (r: real)
    ensures 0.0 <= r <= 1.0
  {
    var retries := if avgRetries < 3.0 then avgRetries else 3.0;
    Fixed3(Clamp01(successRate * 0.6 + (1.0 - retries / 3.0) * 0.2 + quality * 0.2))
  }

  /** More successes, fewer retries and more quality never lower a score; the extremes are reached. */
  lemma ScoreRises(rate: real, retries: real, quality: real, rate': real, retries': real, quality': real)
    requires rate <= rate' && retries' <= retries && quality <= quality'
    ensures Score(rate, retries, quality) <= Score(rate', retries', quality')
    ensures Score(1.0, 0.0, 1.0) == 1.0 && Score(0.0, 3.0, 0.0) == 0.0
  {
    var r, r' := if retries < 3.0 then retries else 3.0, if retries' < 3.0 then retries' else 3.0;
    var x := Clamp01(rate * 0.6 + (1.0 - r / 3.0) * 0.2 + quality * 0.2);
    var y := Clamp01(rate' * 0.6 + (1.0 - r' / 3.0) * 0.2 + quality' * 0.2);
    assert x <= y;
    Fixed3Rises(x, y);
    Fixed3Keeps(0);
    Fixed3Keeps(1000);
  }

  /** While no bound is reached, success counts 0.6, quality 0.2 and three retries 0.2 of the score, up to the
      rounding. */
  lemma ScoreMoves(rate: real, retries: real, quality: real, rate': real, retries': real, quality': real)
    requires 0.0 <= rate <= 1.0 && 0.0 <= retries <= 3.0 && 0.0 <= quality <= 1.0
    requires 0.0 <= rate' <= 1.0 && 0.0 <= retries' <= 3.0 && 0.0 <= quality' <= 1.0
    ensures var moved := 0.6 * (rate' - rate) - 0.2 * (retries' - retries) / 3.0 + 0.2 * (quality' - quality);
      -0.001 <= Score(rate', retries', quality') - Score(rate, retries, quality) - moved <= 0.001
  {
    var x := rate * 0.6 + (1.0 - retries / 3.0) * 0.2 + quality * 0.2;
    var y := rate' * 0.6 + (1.0 - retries' / 3.0) * 0.2 + quality' * 0.2;
    assert 0.0 <= x <= 1.0 && 0.0 <= y <= 1.0;
    assert Score(rate, retries, quality) == Fixed3(x) && Score(rate', retries', quality') == Fixed3(y);
  }

  /** More retries than three count as three. */
  lemma RetriesBeyondThree(rate: real, retries: real, quality: real)
    requires retries >= 3.0
    ensures Score(rate, retries, quality) == Score(rate, 3.0, quality)
  {
  }

  function SuccessfulUses(items: seq<RunOutcome>): set<int> {
    set i | 0 <= i < |items| && items[i].success
  }

  lemma {:induction false} SuccessesAreCounted(items: seq<RunOutcome>)
    ensures |SuccessfulUses(items)| == SuccessCount(items)
    decreases |items|
  {
    if items != [] {
      var n := |items| - 1;
      SuccessesAreCounted(items[..n]);
      assert SuccessfulUses(items) == SuccessfulUses(items[..n]) + if items[n].success then {n} else {};
    }
  }

  /** One more use adds its retries and its quality. */
  lemma SumsAdd(items: seq<RunOutcome>, o: RunOutcome)
    ensures RetrySum(items + [o]) == RetrySum(items) + o.retryCount && RetrySum([]) == 0
    ensures QualitySum(items + [o]) == QualitySum(items) + o.qualityScore && QualitySum([]) == 0.0
  {
    assert (items + [o])[..|items|] == items;
  }

  function Rated(b: Bucket): AdapterReliability {
    var n := |b.items|;
    var rate, retries := Mean(SuccessCount(b.items) as real, n), Mean(RetrySum(b.items) as real, n);
    AdapterReliability(b.adapterId, Fixed3(rate), Fixed3(retries), Score(rate, retries, Mean(QualitySum(b.items), n)), n)
  }

  function AllRated(buckets: seq<Bucket>): (r: seq<AdapterReliability>)
    ensures |r| == |buckets| && forall i | 0 <= i < |r| :: r[i] == Rated(buckets[i])
  {
    seq(|buckets|, i requires 0 <= i < |buckets| => Rated(buckets[i]))
  }

  function Rebuilt(outcomes: seq<RunOutcome>): seq<AdapterReliability> {
    AllRated(BucketsOf(Uses(outcomes)))
  }

  function TotalRuns(rs: seq<AdapterReliability>): nat
    decreases |rs|
  {
    if rs == [] then 0 else TotalRuns(rs[..|rs| - 1]) + rs[|rs| - 1].totalRuns
  }

  /** The row of an adapter: its rate of success, its mean number of retries and its score, to three places. */
  lemma RatedMeans(b: Bucket)
    requires b.items != []
    ensures var n, r := |b.items| as real, Rated(b);
      && r.adapterId == b.adapterId && r.totalRuns == |b.items|
      && -0.0005 <= r.successRate - |SuccessfulUses(b.items)| as real / n <= 0.0005
      && -0.0005 <= r.avgRetries - RetrySum(b.items) as real / n <= 0.0005
      && r.reliabilityScore == Score(|SuccessfulUses(b.items)| as real / n, RetrySum(b.items) as real / n, QualitySum(b.items) / n)
  {
    SuccessesAreCounted(b.items);
  }

  lemma {:induction false} RatedTotal(buckets: seq<Bucket>)
    ensures TotalRuns(AllRated(buckets)) == TotalItems(buckets)
    decreases |buckets|
  {
    if buckets != [] {
      var n := |buckets| - 1;
      RatedTotal(buckets[..n]);
      assert AllRated(buckets)[..n] == AllRated(buckets[..n]);
    }
  }

  function AdapterKey(r: AdapterReliability): string { r.adapterId }

  /** The table has one row per adapter that was used; its runs are the uses of the adapter, its rates and
      scores are shares, and the runs of all rows add up to the lengths of all lists of adapters. */
  lemma ReliabilityAddsUp(outcomes: seq<RunOutcome>)
    ensures var rs := Rebuilt(outcomes);
      && TotalRuns(rs) == TotalUses(outcomes) && Distinct(rs, AdapterKey)
      && (forall i | 0 <= i < |rs| ::
            && rs[i].totalRuns == |OfAdapter(Uses(outcomes), rs[i].adapterId)| > 0
            && 0.0 <= rs[i].successRate <= 1.0 && 0.0 <= rs[i].reliabilityScore <= 1.0)
  {
    var uses := Uses(outcomes);
    var buckets, rs := BucketsOf(uses), Rebuilt(outcomes);
    BucketsHoldUses(uses);
    BucketsCountUses(uses);
    RatedTotal(buckets);
    UsesCount(outcomes);
    forall i | 0 <= i < |rs|
      ensures rs[i].totalRuns == |OfAdapter(uses, rs[i].adapterId)| > 0
      ensures 0.0 <= rs[i].successRate <= 1.0 && 0.0 <= rs[i].reliabilityScore <= 1.0
    {
      ShareWithin(SuccessCount(buckets[i].items) as real, |buckets[i].items| as real);
    }
    forall i, j | 0 <= i < j < |rs| ensures AdapterKey(rs[i]) != AdapterKey(rs[j]) {
      assert BucketKey(buckets[i]) != BucketKey(buckets[j]);
    }
  }

  // ---- The store ----

  method UpdatePatterns(lower: LowerCase, existing: seq<FailurePattern>, o: RunOutcome) returns (patterns: seq<FailurePattern>)
    ensures patterns == UpdatedPatterns(lower, existing, o)
  {
    if o.success || o.dominantFailureType.None? || o.dominantFailureType.value == "" {
      return existing;
    }
    var adapterId := if o.adaptersUsed == [] then "unknown" else o.adaptersUsed[0];
    var id := PatternId(lower, adapterId, o.dominantFailureType.value);
    var n := IndexOf(existing, PatternKey, id, 0);
    if n == |existing| {
      return existing + [FailurePattern(id, adapterId, o.dominantFailureType.value, 0.55, 1)];
    }
    var found := existing[n];
    patterns := existing[n := found.(confidence := NextConfidence(found.confidence), occurrences := found.occurrences + 1)];
  }

  lemma OneMoreUse(before: seq<Use>, o: RunOutcome, j: nat)
    requires j < |o.adaptersUsed|
    ensures BucketsOf(before + UsesOf(o, j + 1)) == AddedTo(BucketsOf(before + UsesOf(o, j)), o.adaptersUsed[j], o)
  {
    var uses := before + UsesOf(o, j + 1);
    assert uses == (before + UsesOf(o, j)) + [Use(o.adaptersUsed[j], o)];
    assert uses[..|uses| - 1] == before + UsesOf(o, j);
  }

  /** Adds an outcome to the bucket of each adapter that it lists. */
  method AddUses(buckets: seq<Bucket>, o: RunOutcome, ghost before: seq<Use>) returns (after: seq<Bucket>)
    requires buckets == BucketsOf(before)
    ensures after == BucketsOf(before + UsesOf(o, |o.adaptersUsed|))
  {
    after := buckets;
    assert before + UsesOf(o, 0) == before;
    for j := 0 to |o.adaptersUsed|
      invariant after == BucketsOf(before + UsesOf(o, j))
    {
      OneMoreUse(before, o, j);
      var adapterId := o.adaptersUsed[j];
      var n := IndexOf(after, BucketKey, adapterId, 0);
      var list := if n == |after| then [] else after[n].items;
      after := Put(after, n, Bucket(adapterId, list + [o]));
    }
  }

  method RebuildReliability(outcomes: seq<RunOutcome>) returns (reliability: seq<AdapterReliability>)
    ensures reliability == Rebuilt(outcomes)
  {
    var buckets: seq<Bucket> := [];
    for i := 0 to |outcomes|
      invariant buckets == BucketsOf(Uses(outcomes[..i]))
    {
      assert outcomes[..i + 1][..i] == outcomes[..i];
      buckets := AddUses(buckets, outcomes[i], Uses(outcomes[..i]));
    }
    assert outcomes[..|outcomes|] == outcomes;
    reliability := AllRated(buckets);
  }

  class LearningStore {
    const lower: LowerCase
    var outcomes: seq<RunOutcome>
    var patterns: seq<FailurePattern>
    var reliability: seq<AdapterReliability>

    /** The derived tables agree with the outcomes. */
    ghost predicate Valid()
      reads this
    {
      PatternsAgree(lower, patterns, outcomes) && reliability == Rebuilt(outcomes)
    }

    constructor (lower: LowerCase)
      ensures Valid() && outcomes == [] && this.lower == lower
    {
      this.lower := lower;
      outcomes, patterns, reliability := [], [], [];
    }

    method LearnFromOutcome(o: RunOutcome)
      requires Valid()
      modifies this
      ensures Valid() && outcomes == old(outcomes) + [o]
      ensures patterns == UpdatedPatterns(lower, old(patterns), o)
    {
      UpdatedPatternsAgree(lower, patterns, outcomes, o);
      outcomes := outcomes + [o];
      patterns := UpdatePatterns(lower, patterns, o);
      reliability := RebuildReliability(outcomes);
    }
  }
}
