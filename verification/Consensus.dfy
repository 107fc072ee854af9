/** The weighted consensus of agent votes, in exact arithmetic. */
module Consensus {
  import opened Options
  import opened Risks
  import Rounding

  datatype Choice = Reject | NeedsReview | Approve

  datatype Vote = Vote(agent: string, decision: Choice, confidence: real)

  datatype Profile = Profile(agent: string, reliability: real, baseWeight: real, canVeto: bool)

  datatype Policy = Policy(
    thresholdLowRisk: real, thresholdMediumRisk: real, thresholdHighRisk: real,
    reliabilityInfluence: Option<real>, confidenceInfluence: Option<real>,
    reviewerVetoAtRisk: set<Risk>, securityVetoAtRisk: set<Risk>)

  datatype Setting = Setting(profiles: seq<Profile>, policy: Policy, risk: Risk)

  function Threshold(s: Setting): real {
    match s.risk
    case High => s.policy.thresholdHighRisk
    case Medium => s.policy.thresholdMediumRisk
    case Low => s.policy.thresholdLowRisk
  }

  function OrElse(x: Option<real>, default: real): real { if x.Some? then x.value else default }

  /** The first profile of the agent. */
  function Find(profiles: seq<Profile>, agent: string): Option<Profile> {
    if profiles == [] then None
    else if profiles[0].agent == agent then Some(profiles[0])
    else Find(profiles[1..], agent)
  }

  /** A factor around 1 that follows a score in [0, 1]. */
  function Factor(score: real, influence: real): real { 1.0 + (Rounding.Clamp01(score) - 0.5) * 2.0 * influence }

  function Product(base: real, reliability: real, confidence: real): real { base * reliability * confidence }

  function AtLeast(least: real, x: real): real { if x < least then least else x }

  function EffectiveWeight(p: Profile, confidence: real, policy: Policy): real {
    var reliabilityFactor := Factor(p.reliability, OrElse(policy.reliabilityInfluence, 0.35));
    var confidenceFactor := Factor(confidence, OrElse(policy.confidenceInfluence, 0.65));
    AtLeast(0.05, Product(p.baseWeight, reliabilityFactor, confidenceFactor))
  }

  // ---- Scores ----

  datatype Tally = Tally(total: real, approval: real, review: real, reject: real)

  const ZERO := Tally(0.0, 0.0, 0.0, 0.0)

  function Add(a: Tally, b: Tally): Tally {
    Tally(a.total + b.total, a.approval + b.approval, a.review + b.review, a.reject + b.reject)
  }

  function Given(decision: Choice, w: real): Tally {
    match decision
    case Approve => Tally(w, w, 0.0, 0.0)
    case NeedsReview => Tally(w, 0.0, w, 0.0)
    case Reject => Tally(w, 0.0, 0.0, w)
  }

  /** What one vote contributes; the vote of an unknown agent contributes nothing. */
  function One(s: Setting, v: Vote): Tally {
    match Find(s.profiles, v.agent)
    case None => ZERO
    case Some(p) => Given(v.decision, EffectiveWeight(p, v.confidence, s.policy))
  }

  /** The contributions of all votes. */
  function Sum(one: Vote -> Tally, votes: seq<Vote>): Tally
    decreases |votes|
  {
    if votes == [] then ZERO else Add(Sum(one, votes[..|votes| - 1]), one(votes[|votes| - 1]))
  }

  function TallyOf(s: Setting, votes: seq<Vote>): Tally { Sum((v: Vote) => One(s, v), votes) }

  /** The parts are not negative and make up the total. */
  predicate Proper(t: Tally) {
    t.approval >= 0.0 && t.review >= 0.0 && t.reject >= 0.0 && t.total == t.approval + t.review + t.reject
  }

  lemma {:induction false} SumProper(one: Vote -> Tally, votes: seq<Vote>)
    requires forall v: Vote :: Proper(one(v))
    ensures Proper(Sum(one, votes))
    decreases |votes|
  {
    if votes != [] {
      SumProper(one, votes[..|votes| - 1]);
      assert Proper(one(votes[|votes| - 1]));
    }
  }

  lemma TallyProper(s: Setting, votes: seq<Vote>)
    ensures Proper(TallyOf(s, votes))
  {
    var one := (v: Vote) => One(s, v);
    forall v: Vote ensures Proper(one(v)) {
      assert one(v) == One(s, v);
    }
    SumProper(one, votes);
  }

  // ---- Veto ----

  predicate Vetoes(s: Setting, v: Vote) {
    var p := Find(s.profiles, v.agent);
    && p.Some? && p.value.canVeto && v.decision == Reject
    && ((v.agent == "reviewer" && s.risk in s.policy.reviewerVetoAtRisk)
        || (v.agent == "security" && s.risk in s.policy.securityVetoAtRisk))
  }

  /** Some vote is a veto. */
  predicate Vetoed(s: Setting, votes: seq<Vote>) {
    exists v | v in votes :: Vetoes(s, v)
  }

  // ---- Decision ----

  function Share(part: real, total: real): real {
    if total > 0.0 then part / total else 0.0
  }

  function Decide(vetoed: bool, approval: real, reject: real, threshold: real): Choice {
    if vetoed then Reject
    else if approval >= threshold && reject < 0.20 then Approve
    else if reject >= 0.35 then Reject
    else NeedsReview
  }

  function DecideBy(vetoed: bool, t: Tally, threshold: real): Choice {
    Decide(vetoed, Share(t.approval, t.total), Share(t.reject, t.total), threshold)
  }

  function Decision(s: Setting, votes: seq<Vote>): Choice {
    DecideBy(Vetoed(s, votes), TallyOf(s, votes), Threshold(s))
  }

  datatype Result = Result(
    approvalScore: real, reviewScore: real, rejectScore: real, totalWeight: real,
    vetoBy: Option<string>, finalDecision: Choice, shouldPause: bool)

  method CheckVeto(s: Setting, votes: seq<Vote>) returns (vetoBy: Option<string>)
    ensures vetoBy.Some? <==> Vetoed(s, votes)
    ensures vetoBy.Some? ==> exists i | 0 <= i < |votes| ::
      Vetoes(s, votes[i]) && votes[i].agent == vetoBy.value && forall j | 0 <= j < i :: !Vetoes(s, votes[j])
  {
    var i := 0;
    while i < |votes|
      invariant 0 <= i <= |votes|
      invariant forall j | 0 <= j < i :: !Vetoes(s, votes[j])
    {
      var vote := votes[i];
      var profile := Find(s.profiles, vote.agent);
      if profile.Some? && profile.value.canVeto && vote.decision == Reject {
        var reviewerCanVeto := vote.agent == "reviewer" && s.risk in s.policy.reviewerVetoAtRisk;
        var securityCanVeto := vote.agent == "security" && s.risk in s.policy.securityVetoAtRisk;
        if reviewerCanVeto || securityCanVeto {
          assert Vetoes(s, votes[i]);
          return Some(vote.agent);
        }
      }
      i := i + 1;
    }
    vetoBy := None;
  }

  /** Adds up the effective weights of the votes by decision. */
  method AddScores(s: Setting, votes: seq<Vote>) returns (t: Tally)
    ensures t == TallyOf(s, votes)
  {
    ghost var one := (v: Vote) => One(s, v);
    var totalWeight, approvalScore, reviewScore, rejectScore := 0.0, 0.0, 0.0, 0.0;
    var i := 0;
    while i < |votes|
      invariant 0 <= i <= |votes|
      invariant Sum(one, votes[..i]) == Tally(totalWeight, approvalScore, reviewScore, rejectScore)
    {
      var vote := votes[i];
      assert votes[..i + 1][..i] == votes[..i];
      i := i + 1;
      var profile := Find(s.profiles, vote.agent);
      assert one(vote) == One(s, vote);
      if profile.Some? {
        var effectiveWeight := EffectiveWeight(profile.value, vote.confidence, s.policy);
        totalWeight := totalWeight + effectiveWeight;
        match vote.decision {
          case Approve => approvalScore := approvalScore + effectiveWeight;
          case NeedsReview => reviewScore := reviewScore + effectiveWeight;
          case Reject => rejectScore := rejectScore + effectiveWeight;
        }
      }
    }
    assert votes[..i] == votes;
    t := Tally(totalWeight, approvalScore, reviewScore, rejectScore);
  }

  method RunAdaptiveConsensus(s: Setting, votes: seq<Vote>) returns (r: Result)
    ensures r.finalDecision == Decision(s, votes)
    ensures r.vetoBy.Some? <==> Vetoed(s, votes)
    ensures var t := TallyOf(s, votes);
      && r.totalWeight == t.total && r.approvalScore == Share(t.approval, t.total)
      && r.reviewScore == Share(t.review, t.total) && r.rejectScore == Share(t.reject, t.total)
    ensures r.shouldPause <==> !(Decision(s, votes) == Approve && s.risk == Low)
  {
    var t := AddScores(s, votes);
    var normalizedApproval := Share(t.approval, t.total);
    var normalizedReview := Share(t.review, t.total);
    var normalizedReject := Share(t.reject, t.total);
    var vetoBy := CheckVeto(s, votes);
    var finalDecision := NeedsReview;
    if vetoBy.Some? {
      finalDecision := Reject;
    } else if normalizedApproval >= Threshold(s) && normalizedReject < 0.20 {
      finalDecision := Approve;
    } else if normalizedReject >= 0.35 {
      finalDecision := Reject;
    }
    var shouldPause := finalDecision != Approve || s.risk != Low;
    r := Result(normalizedApproval, normalizedReview, normalizedReject, t.total, vetoBy, finalDecision, shouldPause);
  }

  // ---- What a decision means ----

  lemma CrossMultiplied(part: real, total: real, q: real)
    requires total > 0.0
    ensures Share(part, total) >= q <==> part >= q * total
  {
    var s := part / total;
    assert s * total == part;
    if s >= q {
      assert s * total >= q * total;
    } else {
      assert s * total < q * total;
    }
  }

  lemma SharesMean(vetoed: bool, t: Tally, threshold: real)
    requires t.total > 0.0
    ensures DecideBy(vetoed, t, threshold) == Reject <==> vetoed || t.reject >= 0.35 * t.total
    ensures DecideBy(vetoed, t, threshold) == Approve <==>
      !vetoed && t.approval >= threshold * t.total && t.reject < 0.20 * t.total
  {
    CrossMultiplied(t.approval, t.total, threshold);
    CrossMultiplied(t.reject, t.total, 0.20);
    CrossMultiplied(t.reject, t.total, 0.35);
  }

  /** When some voting agent is known: a run is rejected exactly when it is vetoed or at least 35 % of the
      weight rejects it, and otherwise approved exactly when the threshold is reached and less than 20 %
      rejects it. */
  lemma DecisionMeans(s: Setting, votes: seq<Vote>)
    requires TallyOf(s, votes).total > 0.0
    ensures var t := TallyOf(s, votes);
      && (Decision(s, votes) == Reject <==> Vetoed(s, votes) || t.reject >= 0.35 * t.total)
      && (Decision(s, votes) == Approve <==>
            !Vetoed(s, votes) && t.approval >= Threshold(s) * t.total && t.reject < 0.20 * t.total)
  {
    SharesMean(Vetoed(s, votes), TallyOf(s, votes), Threshold(s));
  }

  /** Without a vote of a known agent nothing is rejected, and a positive threshold asks for a review. */
  lemma NobodyVoted(s: Setting, votes: seq<Vote>)
    requires forall v | v in votes :: Find(s.profiles, v.agent) == None
    ensures Decision(s, votes) == if Threshold(s) > 0.0 then NeedsReview else Approve
  {
    SumOfNothing((v: Vote) => One(s, v), votes);
  }

  lemma {:induction false} SumOfNothing(one: Vote -> Tally, votes: seq<Vote>)
    requires forall v | v in votes :: one(v) == ZERO
    ensures Sum(one, votes) == ZERO
    decreases |votes|
  {
    if votes != [] {
      var n := |votes| - 1;
      assert forall v | v in votes[..n] :: v in votes;
      assert votes[n] in votes;
      SumOfNothing(one, votes[..n]);
    }
  }

  // ---- The order of votes does not matter ----

  lemma AddLaws(a: Tally, b: Tally, c: Tally)
    ensures Add(Add(a, b), c) == Add(Add(a, c), b)
  {
  }

  /** One vote can be taken out and counted last. */
  lemma {:induction false} TakeOut(one: Vote -> Tally, votes: seq<Vote>, i: nat)
    requires i < |votes|
    ensures Sum(one, votes) == Add(Sum(one, votes[..i] + votes[i + 1..]), one(votes[i]))
    decreases |votes|
  {
    var n := |votes| - 1;
    if i == n {
      assert votes[..i] + votes[i + 1..] == votes[..n];
    } else {
      TakeOut(one, votes[..n], i);
      var rest := votes[..i] + votes[i + 1..];
      assert rest[..|rest| - 1] == votes[..n][..i] + votes[..n][i + 1..] && rest[|rest| - 1] == votes[n];
      AddLaws(Sum(one, rest[..|rest| - 1]), one(votes[i]), one(votes[n]));
    }
  }

  lemma SameRest(votes: seq<Vote>, others: seq<Vote>) returns (i: nat)
    requires votes != [] && multiset(votes) == multiset(others)
    ensures i < |others| && others[i] == votes[|votes| - 1]
    ensures multiset(votes[..|votes| - 1]) == multiset(others[..i] + others[i + 1..])
  {
    var n := |votes| - 1;
    assert votes == votes[..n] + [votes[n]];
    assert votes[n] in multiset(others);
    i :| 0 <= i < |others| && others[i] == votes[n];
    assert others == others[..i] + [others[i]] + others[i + 1..];
    Cancel(multiset(votes[..n]), multiset(others[..i]), multiset(others[i + 1..]), votes[n]);
  }

  lemma Cancel(x: multiset<Vote>, a: multiset<Vote>, b: multiset<Vote>, v: Vote)
    requires x + multiset{v} == a + multiset{v} + b
    ensures x == a + b
  {
    forall u: Vote ensures x[u] == (a + b)[u] {
      assert (x + multiset{v})[u] == (a + multiset{v} + b)[u];
    }
  }

  lemma {:induction false} SumPermuted(one: Vote -> Tally, votes: seq<Vote>, others: seq<Vote>)
    requires multiset(votes) == multiset(others)
    ensures Sum(one, votes) == Sum(one, others)
    decreases |votes|
  {
    assert |votes| == |multiset(votes)| == |others|;
    if votes != [] {
      var i := SameRest(votes, others);
      SumPermuted(one, votes[..|votes| - 1], others[..i] + others[i + 1..]);
      TakeOut(one, others, i);
    }
  }

  /** Permuting the votes changes neither the scores nor the decision. */
  lemma OrderIsIrrelevant(s: Setting, votes: seq<Vote>, others: seq<Vote>)
    requires multiset(votes) == multiset(others)
    ensures TallyOf(s, votes) == TallyOf(s, others) && Vetoed(s, votes) == Vetoed(s, others)
    ensures Decision(s, votes) == Decision(s, others)
  {
    SumPermuted((v: Vote) => One(s, v), votes, others);
    assert forall v :: v in votes <==> v in multiset(votes);
    assert forall v :: v in others <==> v in multiset(others);
  }

  // ---- Monotonicity ----

  function Rank(c: Choice): nat {
    match c case Reject => 0 case NeedsReview => 1 case Approve => 2
  }

  /** The vote moves up: its decision does not fall, and its confidence changes only in favour of approval. */
  predicate Raises(v: Vote, w: Vote) {
    && w.agent == v.agent && Rank(v.decision) <= Rank(w.decision)
    && (w.confidence == v.confidence
        || (w.decision == Approve && w.confidence >= v.confidence)
        || (v.decision == Reject && w.confidence <= v.confidence))
  }

  /** Base weights are not negative and influences lie in [0, 1]. */
  predicate Sane(s: Setting) {
    && (forall i | 0 <= i < |s.profiles| :: s.profiles[i].baseWeight >= 0.0)
    && 0.0 <= OrElse(s.policy.reliabilityInfluence, 0.35) <= 1.0
    && 0.0 <= OrElse(s.policy.confidenceInfluence, 0.65) <= 1.0
  }

  lemma {:induction false} FindIn(profiles: seq<Profile>, agent: string)
    ensures Find(profiles, agent).Some? ==> Find(profiles, agent).value in profiles
    decreases |profiles|
  {
    if profiles != [] {
      FindIn(profiles[1..], agent);
    }
  }

  lemma Scale(a: real, x: real, y: real)
    requires a >= 0.0 && x <= y
    ensures a * x <= a * y
  {
  }

  lemma Affine(a: real, b: real, k: real)
    requires 0.0 <= k <= 1.0 && -1.0 <= a <= b
    ensures 0.0 <= 1.0 + a * k <= 1.0 + b * k
  {
    Scale(k, -1.0, a);
    Scale(k, a, b);
    assert k * -1.0 == -k;
    assert a * k == k * a && b * k == k * b;
    assert a * k >= -k >= -1.0;
  }

  lemma FactorBounds(x: real, y: real, influence: real)
    requires 0.0 <= influence <= 1.0 && x <= y
    ensures 0.0 <= Factor(x, influence) <= Factor(y, influence)
  {
    Affine((Rounding.Clamp01(x) - 0.5) * 2.0, (Rounding.Clamp01(y) - 0.5) * 2.0, influence);
  }

  lemma ProductRises(base: real, f: real, x: real, y: real)
    requires base >= 0.0 && f >= 0.0 && x <= y
    ensures Product(base, f, x) <= Product(base, f, y)
  {
    Scale(base, 0.0, f);
    Scale(base * f, x, y);
  }

  /** More confidence never means less weight. */
  lemma WeightRises(s: Setting, v: Vote, w: Vote)
    requires Sane(s) && v.agent == w.agent && v.confidence <= w.confidence && Find(s.profiles, v.agent).Some?
    ensures var p := Find(s.profiles, v.agent).value;
      EffectiveWeight(p, v.confidence, s.policy) <= EffectiveWeight(p, w.confidence, s.policy)
  {
    FindIn(s.profiles, v.agent);
    var p := Find(s.profiles, v.agent).value;
    var f := Factor(p.reliability, OrElse(s.policy.reliabilityInfluence, 0.35));
    var ci := OrElse(s.policy.confidenceInfluence, 0.65);
    FactorBounds(p.reliability, p.reliability, OrElse(s.policy.reliabilityInfluence, 0.35));
    FactorBounds(v.confidence, w.confidence, ci);
    ProductRises(p.baseWeight, f, Factor(v.confidence, ci), Factor(w.confidence, ci));
  }

  /** The shares of `t` are at least as favourable as those of `u`. */
  predicate Favours(t: Tally, u: Tally) {
    Share(t.approval, t.total) >= Share(u.approval, u.total) && Share(t.reject, t.total) <= Share(u.reject, u.total)
  }

  lemma ShareAtLeast(part: real, total: real, q: real)
    requires total > 0.0 && part >= q * total
    ensures Share(part, total) >= q
  {
  }

  lemma ShareAtMost(part: real, total: real, q: real)
    requires total > 0.0 && part <= q * total
    ensures Share(part, total) <= q
  {
  }

  /** Weight `d` is added to the approvals. */
  lemma MoreApproval(t: Tally, d: real)
    requires t.approval >= 0.0 && t.reject >= 0.0 && t.total >= t.approval + t.reject && d >= 0.0
    ensures Favours(Add(t, Given(Approve, d)), t)
  {
    if t.total > 0.0 {
      var a, r := t.approval / t.total, t.reject / t.total;
      assert a * t.total == t.approval && r * t.total == t.reject;
      ShareAtMost(t.approval, t.total, 1.0);
      Scale(d, a, 1.0);
      ShareAtLeast(t.approval + d, t.total + d, a);
      ShareAtLeast(t.reject, t.total, 0.0);
      Scale(d, 0.0, r);
      ShareAtMost(t.reject, t.total + d, r);
    }
  }

  /** Weight `d` is taken from the rejections. */
  lemma LessReject(t: Tally, d: real)
    requires t.approval >= 0.0 && t.reject >= 0.0 && t.total >= t.approval + t.reject && d >= 0.0
    ensures Favours(t, Add(t, Given(Reject, d)))
  {
    var u := Add(t, Given(Reject, d));
    if u.total > 0.0 {
      var a, r := u.approval / u.total, u.reject / u.total;
      assert a * u.total == u.approval && r * u.total == u.reject;
      if t.total > 0.0 {
        ShareAtLeast(u.approval, u.total, 0.0);
        Scale(d, 0.0, a);
        ShareAtLeast(t.approval, t.total, a);
        ShareAtMost(u.reject, u.total, 1.0);
        Scale(d, r, 1.0);
        ShareAtMost(t.reject, t.total, r);
      }
    }
  }

  // ---- Raising votes ----

  lemma Replaced(s: Setting, votes: seq<Vote>, i: nat, w: Vote) returns (rest: Tally)
    requires i < |votes|
    ensures Proper(rest)
    ensures TallyOf(s, votes) == Add(rest, One(s, votes[i]))
    ensures TallyOf(s, votes[i := w]) == Add(rest, One(s, w))
  {
    var one := (v: Vote) => One(s, v);
    var others := votes[i := w];
    TakeOut(one, votes, i);
    TakeOut(one, others, i);
    assert others[..i] + others[i + 1..] == votes[..i] + votes[i + 1..];
    rest := TallyOf(s, votes[..i] + votes[i + 1..]);
    TallyProper(s, votes[..i] + votes[i + 1..]);
  }

  lemma VetoFalls(s: Setting, votes: seq<Vote>, i: nat, w: Vote)
    requires i < |votes| && Raises(votes[i], w) && Vetoed(s, votes[i := w])
    ensures Vetoed(s, votes)
  {
    var others := votes[i := w];
    var v :| v in others && Vetoes(s, v);
    var k :| 0 <= k < |others| && others[k] == v;
    assert k == i ==> Vetoes(s, votes[i]);
    assert votes[k] in votes && Vetoes(s, votes[k]);
  }

  /** More favourable shares without a new veto never lower the decision. */
  lemma FavourDecides(s: Setting, votes: seq<Vote>, others: seq<Vote>)
    requires Favours(TallyOf(s, others), TallyOf(s, votes)) && (Vetoed(s, others) ==> Vetoed(s, votes))
    ensures Rank(Decision(s, votes)) <= Rank(Decision(s, others))
  {
  }

  /** The same weight moves to a higher decision. */
  lemma DecisionUp(rest: Tally, c: Choice, d: Choice, w: real)
    requires Rank(c) <= Rank(d) && w >= 0.0
    ensures Favours(Add(rest, Given(d, w)), Add(rest, Given(c, w)))
  {
    var t, u := Add(rest, Given(d, w)), Add(rest, Given(c, w));
    assert t.total == u.total && t.approval >= u.approval && t.reject <= u.reject;
    if t.total > 0.0 {
      Quotients(u.approval, t.approval, t.total);
      Quotients(t.reject, u.reject, t.total);
    }
  }

  lemma Quotients(x: real, y: real, total: real)
    requires total > 0.0 && x <= y
    ensures x / total <= y / total
  {
  }

  /** A vote changes its weight in favour of approval, at the same decision. */
  lemma WeightMoves(rest: Tally, c: Choice, w: real, x: real)
    requires Proper(rest) && w >= 0.0 && x >= 0.0
    requires (c == Approve && x >= w) || (c == Reject && x <= w)
    ensures Favours(Add(rest, Given(c, x)), Add(rest, Given(c, w)))
  {
    if c == Approve {
      var t := Add(rest, Given(Approve, w));
      MoreApproval(t, x - w);
      assert Add(t, Given(Approve, x - w)) == Add(rest, Given(Approve, x));
    } else {
      var t := Add(rest, Given(Reject, x));
      LessReject(t, w - x);
      assert Add(t, Given(Reject, w - x)) == Add(rest, Given(Reject, w));
    }
  }

  lemma FavourChain(t: Tally, u: Tally, v: Tally)
    requires Favours(t, u) && Favours(u, v)
    ensures Favours(t, v)
  {
  }

  /** The contribution of one vote moves up, in the tally of the others. */
  lemma ContributionRises(rest: Tally, c: Choice, w: real, d: Choice, x: real)
    requires Proper(rest) && w >= 0.0 && x >= 0.0
    requires Rank(c) <= Rank(d) && (x == w || (d == Approve && x >= w) || (c == Reject && x <= w))
    ensures Favours(Add(rest, Given(d, x)), Add(rest, Given(c, w)))
  {
    if x >= w {
      DecisionUp(rest, c, d, w);
      if x > w {
        WeightMoves(rest, Approve, w, x);
        FavourChain(Add(rest, Given(Approve, x)), Add(rest, Given(Approve, w)), Add(rest, Given(c, w)));
      }
    } else {
      WeightMoves(rest, Reject, w, x);
      DecisionUp(rest, Reject, d, x);
      FavourChain(Add(rest, Given(d, x)), Add(rest, Given(Reject, x)), Add(rest, Given(Reject, w)));
    }
  }

  /** The weights that two versions of a vote get. */
  lemma RaisedWeights(s: Setting, v: Vote, w: Vote)
    requires Sane(s) && Raises(v, w) && Find(s.profiles, v.agent).Some?
    ensures var p := Find(s.profiles, v.agent).value;
      var a, b := EffectiveWeight(p, v.confidence, s.policy), EffectiveWeight(p, w.confidence, s.policy);
      b == a || (w.decision == Approve && b >= a) || (v.decision == Reject && b <= a)
  {
    if w.confidence > v.confidence {
      WeightRises(s, v, w);
    } else if w.confidence < v.confidence {
      WeightRises(s, w, v);
    }
  }

  /** One vote moves up: the shares become more favourable. */
  lemma RaiseFavours(s: Setting, votes: seq<Vote>, i: nat, w: Vote)
    requires Sane(s) && i < |votes| && Raises(votes[i], w)
    ensures Favours(TallyOf(s, votes[i := w]), TallyOf(s, votes))
  {
    var v := votes[i];
    var rest := Replaced(s, votes, i, w);
    var found := Find(s.profiles, v.agent);
    if found.Some? {
      RaisedWeights(s, v, w);
      var a, b := EffectiveWeight(found.value, v.confidence, s.policy), EffectiveWeight(found.value, w.confidence, s.policy);
      ContributionRises(rest, v.decision, a, w.decision, b);
    } else {
      assert TallyOf(s, votes[i := w]) == TallyOf(s, votes);
    }
  }

  /** Moving one vote up never lowers the final decision. */
  lemma RaisingOneVote(s: Setting, votes: seq<Vote>, i: nat, w: Vote)
    requires Sane(s) && i < |votes| && Raises(votes[i], w)
    ensures Rank(Decision(s, votes)) <= Rank(Decision(s, votes[i := w]))
  {
    RaiseFavours(s, votes, i, w);
    if Vetoed(s, votes[i := w]) {
      VetoFalls(s, votes, i, w);
    }
    FavourDecides(s, votes, votes[i := w]);
  }

  /** Moving any number of votes up never lowers the final decision. */
  lemma {:induction false} RaisingVotes(s: Setting, votes: seq<Vote>, others: seq<Vote>, n: nat)
    requires Sane(s) && |others| == |votes| && n <= |votes|
    requires forall k | 0 <= k < n :: Raises(votes[k], others[k])
    requires forall k | n <= k < |votes| :: others[k] == votes[k]
    ensures Rank(Decision(s, votes)) <= Rank(Decision(s, others))
    decreases n
  {
    if n == 0 {
      assert others == votes;
    } else {
      var before := others[n - 1 := votes[n - 1]];
      RaisingVotes(s, votes, before, n - 1);
      RaisingOneVote(s, before, n - 1, others[n - 1]);
      assert before[n - 1 := others[n - 1]] == others;
    }
  }

  lemma TwoVotes(s: Setting, v: Vote, w: Vote)
    ensures TallyOf(s, [v, w]) == Add(One(s, v), One(s, w))
  {
    SumOfTwo((u: Vote) => One(s, u), v, w);
  }

  lemma SumOfTwo(one: Vote -> Tally, v: Vote, w: Vote)
    ensures Sum(one, [v, w]) == Add(one(v), one(w))
  {
    assert [v, w][..1] == [v] && [v][..0] == [];
    assert Sum(one, [v]) == Add(Sum(one, []), one(v)) == one(v);
  }

  lemma TwoProfiles(a: Profile, b: Profile)
    requires a.agent != b.agent
    ensures Find([a, b], a.agent) == Some(a) && Find([a, b], b.agent) == Some(b)
  {
    assert [a, b][1..] == [b];
  }

  /** A profile of base weight 1 and middling reliability: the weight is twice the confidence, but at least 0.05. */
  lemma PlainWeight(p: Profile, confidence: real, policy: Policy)
    requires p.baseWeight == 1.0 && p.reliability == 0.5 && policy.confidenceInfluence == Some(1.0)
    ensures EffectiveWeight(p, confidence, policy) == AtLeast(0.05, 2.0 * Rounding.Clamp01(confidence))
  {
    var influence := OrElse(policy.reliabilityInfluence, 0.35);
    assert Rounding.Clamp01(0.5) - 0.5 == 0.0;
    assert Factor(p.reliability, influence) == 1.0;
  }

  lemma OfTwo(s: Setting, v: Vote, w: Vote)
    requires !Vetoes(s, v) && !Vetoes(s, w)
    ensures Decision(s, [v, w]) == DecideBy(false, Add(One(s, v), One(s, w)), Threshold(s))
  {
    TwoVotes(s, v, w);
    NoVeto(s, v, w);
  }

  lemma NoVeto(s: Setting, v: Vote, w: Vote)
    requires !Vetoes(s, v) && !Vetoes(s, w)
    ensures !Vetoed(s, [v, w])
  {
    forall u | u in [v, w] ensures !Vetoes(s, u) {
      assert u == v || u == w;
    }
  }

  /** The tallies of two lists of votes that differ in the weight of one vote for review. */
  predicate MoreReview(t: Tally, u: Tally) {
    u.approval == t.approval && u.reject == t.reject && t.total <= u.total
  }

  lemma ReviewTallies(s: Setting, votes: seq<Vote>, i: nat, w: Vote)
    requires Sane(s) && i < |votes| && votes[i].decision == w.decision == NeedsReview
    requires w.agent == votes[i].agent && w.confidence >= votes[i].confidence
    ensures MoreReview(TallyOf(s, votes), TallyOf(s, votes[i := w]))
    ensures Find(s.profiles, w.agent).Some? ==> TallyOf(s, votes).total > 0.0
    ensures Find(s.profiles, w.agent).None? ==> TallyOf(s, votes[i := w]) == TallyOf(s, votes)
  {
    var rest := Replaced(s, votes, i, w);
    if Find(s.profiles, w.agent).Some? {
      WeightRises(s, votes[i], w);
    }
  }

  lemma ReviewVetoes(s: Setting, votes: seq<Vote>, i: nat, w: Vote)
    requires i < |votes| && votes[i].decision == w.decision == NeedsReview
    ensures Vetoed(s, votes[i := w]) == Vetoed(s, votes)
  {
    var others := votes[i := w];
    if Vetoed(s, votes) {
      var v :| v in votes && Vetoes(s, v);
      var k :| 0 <= k < |votes| && votes[k] == v;
      assert others[k] in others && others[k] == v;
    }
    if Vetoed(s, others) {
      var v :| v in others && Vetoes(s, v);
      var k :| 0 <= k < |others| && others[k] == v;
      assert votes[k] in votes && votes[k] == v;
    }
  }

  lemma DilutedShare(part: real, total: real, more: real)
    requires part >= 0.0 && 0.0 < total <= more
    ensures Share(part, more) <= Share(part, total)
  {
    var q := part / total;
    assert q * total == part;
    ShareAtLeast(part, total, 0.0);
    Scale(q, total, more);
    ShareAtMost(part, more, q);
  }

  /** With more weight on reviews the rejected share does not rise, so only an approval can be lost, and only
      for want of approvals. */
  lemma DilutionLowersIff(vetoed: bool, t: Tally, u: Tally, threshold: real)
    requires Proper(t) && MoreReview(t, u) && (t.total > 0.0 || t == u)
    ensures Rank(DecideBy(vetoed, u, threshold)) < Rank(DecideBy(vetoed, t, threshold)) <==>
      DecideBy(vetoed, t, threshold) == Approve && Share(u.approval, u.total) < threshold
  {
    if t.total > 0.0 {
      DilutedShare(t.reject, t.total, u.total);
    }
  }

  /** Confidence in a vote for review is no such move: more of it dilutes the approvals.  It lowers the
      decision exactly when that was an approval and the approvals' share of the greater weight is below the
      threshold. */
  lemma ReviewConfidenceLowersIff(s: Setting, votes: seq<Vote>, i: nat, w: Vote)
    requires Sane(s) && i < |votes| && votes[i].decision == w.decision == NeedsReview
    requires w.agent == votes[i].agent && w.confidence >= votes[i].confidence
    ensures var t := TallyOf(s, votes[i := w]);
      Rank(Decision(s, votes[i := w])) < Rank(Decision(s, votes)) <==>
      Decision(s, votes) == Approve && Share(t.approval, t.total) < Threshold(s)
  {
    ReviewTallies(s, votes, i, w);
    ReviewVetoes(s, votes, i, w);
    TallyProper(s, votes);
    DilutionLowersIff(Vetoed(s, votes), TallyOf(s, votes), TallyOf(s, votes[i := w]), Threshold(s));
  }

  /** It does happen: with the threshold 0.6 an approval gives way to a review. */
  lemma ReviewConfidenceDilutes(s: Setting, a: Profile, b: Profile)
    requires s.profiles == [a, b] && a.agent != b.agent && !a.canVeto && !b.canVeto
    requires a.baseWeight == b.baseWeight == 1.0 && a.reliability == b.reliability == 0.5
    requires s.policy.confidenceInfluence == Some(1.0) && Threshold(s) == 0.6
    ensures Decision(s, [Vote(a.agent, Approve, 0.5), Vote(b.agent, NeedsReview, 0.0)]) == Approve
    ensures Decision(s, [Vote(a.agent, Approve, 0.5), Vote(b.agent, NeedsReview, 1.0)]) == NeedsReview
  {
    TwoProfiles(a, b);
    OfTwo(s, Vote(a.agent, Approve, 0.5), Vote(b.agent, NeedsReview, 0.0));
    OfTwo(s, Vote(a.agent, Approve, 0.5), Vote(b.agent, NeedsReview, 1.0));
    PlainWeight(a, 0.5, s.policy);
    PlainWeight(b, 0.0, s.policy);
    PlainWeight(b, 1.0, s.policy);
    assert One(s, Vote(a.agent, Approve, 0.5)) == Given(Approve, 1.0);
    assert One(s, Vote(b.agent, NeedsReview, 0.0)) == Given(NeedsReview, 0.05);
    assert One(s, Vote(b.agent, NeedsReview, 1.0)) == Given(NeedsReview, 2.0);
    DilutedShares();
  }

  lemma DilutedShares()
    ensures DecideBy(false, Add(Given(Approve, 1.0), Given(NeedsReview, 0.05)), 0.6) == Approve
    ensures DecideBy(false, Add(Given(Approve, 1.0), Given(NeedsReview, 2.0)), 0.6) == NeedsReview
  {
    ShareAtLeast(1.0, 1.05, 0.6);
    ShareAtMost(0.0, 1.05, 0.0);
    ShareAtMost(1.0, 3.0, 0.5);
    ShareAtMost(0.0, 3.0, 0.0);
  }
}
