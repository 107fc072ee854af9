/** What a consensus decides at each risk, vote by vote, and what a higher risk does to it. */
module ConsensusByRisk {
  import opened Options
  import opened Risks
  import opened Consensus

  // ---- Vetoes ----

  /** The agent's first profile may veto. */
  predicate MayVeto(profiles: seq<Profile>, agent: string) {
    exists k | 0 <= k < |profiles| :: FirstOf(profiles, agent, k) && profiles[k].canVeto
  }

  predicate FirstOf(profiles: seq<Profile>, agent: string, k: nat)
    requires k < |profiles|
  {
    profiles[k].agent == agent && forall j | 0 <= j < k :: profiles[j].agent != agent
  }

  lemma {:induction false} FindIsFirst(profiles: seq<Profile>, agent: string)
    ensures match Find(profiles, agent)
      case Some(p) => exists k :: 0 <= k < |profiles| && FirstOf(profiles, agent, k) && profiles[k] == p
      case None => forall k | 0 <= k < |profiles| :: profiles[k].agent != agent
    decreases |profiles|
  {
    if profiles != [] {
      if profiles[0].agent == agent {
        assert FirstOf(profiles, agent, 0);
      } else {
        FindIsFirst(profiles[1..], agent);
        if Find(profiles[1..], agent).Some? {
          var k :| 0 <= k < |profiles[1..]| && FirstOf(profiles[1..], agent, k) && profiles[1..][k] == Find(profiles[1..], agent).value;
          assert FirstOf(profiles, agent, k + 1) && profiles[k + 1] == profiles[1..][k];
        }
      }
    }
  }

  /** The vote rejects, its agent may veto, and the policy lets this agent veto at this risk. */
  predicate VetoAt(s: Setting, v: Vote) {
    && v.decision == Reject && MayVeto(s.profiles, v.agent)
    && (v.agent == "reviewer" ==> s.risk in s.policy.reviewerVetoAtRisk)
    && (v.agent == "security" ==> s.risk in s.policy.securityVetoAtRisk)
    && v.agent in {"reviewer", "security"}
  }

  lemma VetoMeans(s: Setting, votes: seq<Vote>)
    ensures Vetoed(s, votes) <==> exists v :: v in votes && VetoAt(s, v)
  {
    forall v: Vote ensures Vetoes(s, v) <==> VetoAt(s, v) {
      FindIsFirst(s.profiles, v.agent);
    }
  }

  // ---- Weights ----

  /** The weight of a vote: the base weight of its agent, scaled for reliability and for confidence by up to the
      influence of each, 0.35 and 0.65 unless the policy says otherwise, and never below 0.05. */
  lemma WeightScales(p: Profile, confidence: real, policy: Policy)
    requires 0.0 <= p.reliability <= 1.0 && 0.0 <= confidence <= 1.0
    ensures var r := match policy.reliabilityInfluence case Some(x) => x case None => 0.35;
      var c := match policy.confidenceInfluence case Some(x) => x case None => 0.65;
      var w := EffectiveWeight(p, confidence, policy);
      && w >= 0.05
      && (p.reliability == 0.5 && confidence == 0.5 && p.baseWeight >= 0.05 ==> w == p.baseWeight)
      && (w == 0.05 || w == p.baseWeight * (1.0 - r + 2.0 * r * p.reliability) * (1.0 - c + 2.0 * c * confidence))
      && w >= p.baseWeight * (1.0 - r + 2.0 * r * p.reliability) * (1.0 - c + 2.0 * c * confidence)
  {
    var r := match policy.reliabilityInfluence case Some(x) => x case None => 0.35;
    var c := match policy.confidenceInfluence case Some(x) => x case None => 0.65;
    FactorIs(p.reliability, r);
    FactorIs(confidence, c);
  }

  /** Reliability and confidence below 0 count as 0, and above 1 as 1. */
  lemma WeightClamps(p: Profile, confidence: real, policy: Policy)
    ensures p.reliability <= 0.0 ==> EffectiveWeight(p, confidence, policy) == EffectiveWeight(p.(reliability := 0.0), confidence, policy)
    ensures p.reliability >= 1.0 ==> EffectiveWeight(p, confidence, policy) == EffectiveWeight(p.(reliability := 1.0), confidence, policy)
    ensures confidence <= 0.0 ==> EffectiveWeight(p, confidence, policy) == EffectiveWeight(p, 0.0, policy)
    ensures confidence >= 1.0 ==> EffectiveWeight(p, confidence, policy) == EffectiveWeight(p, 1.0, policy)
  {
  }

  lemma FactorIs(x: real, influence: real)
    requires 0.0 <= x <= 1.0
    ensures Factor(x, influence) == 1.0 - influence + 2.0 * influence * x
  {
    assert (x - 0.5) * 2.0 * influence == 2.0 * influence * x - influence;
  }

  /** One more vote: the weight of a known agent is added to the total and to the side it votes for; a vote of an
      unknown agent changes nothing. */
  lemma VoteAdds(s: Setting, votes: seq<Vote>, v: Vote)
    ensures var t, u := TallyOf(s, votes), TallyOf(s, votes + [v]);
      match Find(s.profiles, v.agent)
      case None => u == t
      case Some(p) =>
        var w := EffectiveWeight(p, v.confidence, s.policy);
        && u.total == t.total + w
        && u.approval == (if v.decision == Approve then t.approval + w else t.approval)
        && u.review == (if v.decision == NeedsReview then t.review + w else t.review)
        && u.reject == (if v.decision == Reject then t.reject + w else t.reject)
  {
    assert (votes + [v])[..|votes|] == votes;
  }

  // ---- Decisions ----

  /** With a vote of a known agent, at each risk: what is approved, by the threshold that the policy has for that
      risk, and what is rejected. */
  lemma DecisionAtRisk(s: Setting, votes: seq<Vote>)
    requires TallyOf(s, votes).total > 0.0
    ensures var t := TallyOf(s, votes);
      var least := match s.risk
        case Low => s.policy.thresholdLowRisk case Medium => s.policy.thresholdMediumRisk case High => s.policy.thresholdHighRisk;
      var veto := exists v :: v in votes && VetoAt(s, v);
      && (Decision(s, votes) == Approve <==> !veto && t.approval >= least * t.total && t.reject < 0.20 * t.total)
      && (Decision(s, votes) == Reject <==> veto || t.reject >= 0.35 * t.total)
  {
    VetoMeans(s, votes);
    DecisionMeans(s, votes);
  }

  function Degree(r: Risk): nat { match r case Low => 0 case Medium => 1 case High => 2 }

  /** Whoever may veto at a risk may veto at every higher one. */
  predicate Growing(risks: set<Risk>) {
    forall q, r | q in risks && Degree(q) <= Degree(r) :: r in risks
  }

  /** A stricter policy at higher risks: thresholds do not fall, and vetoes only grow. */
  predicate Stricter(p: Policy) {
    && p.thresholdLowRisk <= p.thresholdMediumRisk <= p.thresholdHighRisk
    && Growing(p.reviewerVetoAtRisk) && Growing(p.securityVetoAtRisk)
  }

  lemma ThresholdRises(s: Setting, risk: Risk)
    requires Stricter(s.policy) && Degree(s.risk) <= Degree(risk)
    ensures Threshold(s) <= Threshold(s.(risk := risk))
  {
  }

  lemma {:induction false} SameTally(s: Setting, votes: seq<Vote>, risk: Risk)
    ensures TallyOf(s.(risk := risk), votes) == TallyOf(s, votes)
    decreases |votes|
  {
    if votes != [] {
      var before, v := votes[..|votes| - 1], votes[|votes| - 1];
      assert votes == before + [v];
      SameTally(s, before, risk);
      VoteAdds(s, before, v);
      VoteAdds(s.(risk := risk), before, v);
    }
  }

  /** With such a policy a higher risk never raises the decision. */
  lemma RaisingRisk(s: Setting, votes: seq<Vote>, risk: Risk)
    requires Stricter(s.policy) && Degree(s.risk) <= Degree(risk)
    ensures Rank(Decision(s.(risk := risk), votes)) <= Rank(Decision(s, votes))
  {
    SameTally(s, votes, risk);
    ThresholdRises(s, risk);
    if Vetoed(s, votes) {
      var v :| v in votes && Vetoes(s, v);
      assert Vetoes(s.(risk := risk), v);
    }
  }
}
