/** `calculateRelevanceScore` in src/lib/utils.ts: the one-directional, unfloored variant. */
module UtilsScore {
  import opened Wrappers
  import opened Arith
  import opened Seqs
  import opened Relevance

  /** The skill entries that some word of the description contains, in their original order. */
  function ForwardMatches(description: string, skills: seq<string>): (r: seq<string>)
    ensures |r| <= |skills|
    ensures forall s :: s in r <==> s in skills && MatchesForward(Words(description), s)
    ensures forall s :: multiset(r)[s] == if MatchesForward(Words(description), s) then multiset(skills)[s] else 0
  {
    var words := Words(description);
    FilterMultiplicity(skills, s => MatchesForward(words, s));
    Filter(skills, s => MatchesForward(words, s))
  }

  /**
   * The percentage of skill entries some word contains, rounded and clamped
   * at 100. With no skills the quotient is `0 / 0`, which is `NaN`: `None`.
   * The clamp never bites: the rounded percentage is already at most 100.
   */
  function UtilsRelevanceScore(description: string, skills: seq<string>): (r: Option<int>)
    ensures r.None? <==> skills == []
    ensures r.Some? ==> 0 <= r.value <= 100
    ensures r.Some? ==> r.value == RoundHalfUp(100 * |ForwardMatches(description, skills)|, |skills|)
  {
    if skills == [] then None
    else
      var m := |ForwardMatches(description, skills)|;
      PercentWithin(m, |skills|);
      Some(Min(RoundHalfUp(100 * m, |skills|), 100))
  }

  /** A description that contains none of the skills scores 0: there is no floor. */
  lemma NothingSharedScoresZero(description: string, skills: seq<string>)
    requires skills != []
    requires forall s :: s in skills ==> !MatchesForward(Words(description), s)
    ensures UtilsRelevanceScore(description, skills) == Some(0)
  {
    var words := Words(description);
    FilterKeepsNone(skills, s => MatchesForward(words, s));
    PercentWithin(0, |skills|);
  }

  /**
   * For the same inputs, the score of src/lib/apis/ioNet.ts is at least this
   * one: every forward match is a match either way, the denominator is the
   * same, and the other variant also has a floor.
   */
  lemma IoNetScoreDominates(description: string, skills: seq<string>)
    requires skills != []
    ensures RelevanceScore(description, skills) >= UtilsRelevanceScore(description, skills).value
  {
    var words := Words(description);
    var fwd := s => MatchesForward(words, s);
    var either := s => MatchesEitherWay(words, s);
    FilterWeakerKeepsMore(skills, fwd, either);
    var m1 := |Filter(skills, fwd)|;
    var m2 := |Filter(skills, either)|;
    assert m1 == |ForwardMatches(description, skills)|;
    assert m2 == |MatchedSkills(description, skills)|;
    RoundMonotone(100 * m1, 100 * m2, |skills|);
    RelevanceScoreIsFlooredPercent(description, skills);
    PercentWithin(m1, |skills|);
  }
}
