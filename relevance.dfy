/** `calculateRelevanceScore` (src/lib/apis/ioNet.ts): bidirectional substring matching with a floor of 45. */
module Relevance {
  import opened Text
  import opened Arith
  import opened Seqs

  /** The score no listing falls below. */
  const ScoreFloor := 45

  /** `jobDescription.toLowerCase().split(/\W+/)`. */
  function Words(description: string): (r: seq<string>)
    ensures |r| >= 1
    ensures var t := Lower(description);
      forall i, j :: IsWordRun(t, i, j) ==> t[i..j] in r
    ensures var t := Lower(description);
      forall w :: w in r && w != "" ==> exists i, j :: IsWordRun(t, i, j) && w == t[i..j]
  {
    SplitIsWordRuns(Lower(description));
    Split(Lower(description))
  }

  /** Some word contains the lower-cased skill, or is contained in it. */
  predicate MatchesEitherWay(words: seq<string>, skill: string) {
    exists i :: 0 <= i < |words| && (Contains(words[i], Lower(skill)) || Contains(Lower(skill), words[i]))
  }

  /** Some word contains the lower-cased skill. */
  predicate MatchesForward(words: seq<string>, skill: string) {
    exists i :: 0 <= i < |words| && Contains(words[i], Lower(skill))
  }

  /** The skill entries that match, duplicates kept: `resumeSkills.filter(...)`. */
  function MatchedSkills(description: string, skills: seq<string>): (r: seq<string>)
    ensures |r| <= |skills|
    ensures forall s :: s in r <==> s in skills && MatchesEitherWay(Words(description), s)
    ensures forall s :: multiset(r)[s] == if MatchesEitherWay(Words(description), s) then multiset(skills)[s] else 0
  {
    var words := Words(description);
    FilterMultiplicity(skills, s => MatchesEitherWay(words, s));
    Filter(skills, s => MatchesEitherWay(words, s))
  }

  /** The score for `m` matches out of `n` skill entries: a clamped, floored rounded percentage. */
  function PercentScore(m: nat, n: nat): (r: int)
    ensures ScoreFloor <= r <= 100
    ensures m == 0 ==> r == ScoreFloor
    ensures m > 0 && m >= n ==> r == 100
  {
    PercentEnds(m, Max(n, 1));
    Max(Min(RoundHalfUp(100 * m, Max(n, 1)), 100), ScoreFloor)
  }

  function RelevanceScore(description: string, skills: seq<string>): (r: int)
    ensures ScoreFloor <= r <= 100
    ensures skills == [] ==> r == ScoreFloor
  {
    PercentScore(|MatchedSkills(description, skills)|, |skills|)
  }

  /** With at least one skill, the score is the rounded match percentage raised to the floor; the clamp at 100 never bites. */
  lemma RelevanceScoreIsFlooredPercent(description: string, skills: seq<string>)
    requires skills != []
    ensures var m := |MatchedSkills(description, skills)|;
      RelevanceScore(description, skills) == Max(RoundHalfUp(100 * m, |skills|), ScoreFloor)
  {
    PercentWithin(|MatchedSkills(description, skills)|, |skills|);
  }

  /** More matches never lower the score. */
  lemma PercentScoreMonotone(m1: nat, m2: nat, n: nat)
    requires m1 <= m2
    ensures PercentScore(m1, n) <= PercentScore(m2, n)
  {
    RoundMonotone(100 * m1, 100 * m2, Max(n, 1));
  }

  lemma LowerKeepsWordChars(s: string)
    ensures forall i :: 0 <= i < |s| ==> (IsWordChar(Lower(s)[i]) <==> IsWordChar(s[i]))
  {
  }

  /** An empty description, or one that opens or closes with a non-word character, yields an empty word. */
  lemma EmptyWordAtSeparatorEdge(description: string)
    ensures "" in Words(description) <==>
            description == [] || !IsWordChar(description[0]) || !IsWordChar(description[|description| - 1])
  {
    LowerKeepsWordChars(description);
    SplitHasEmptyPiece(Lower(description));
  }

  /** An empty word is contained in every skill, so every skill entry matches and the score is 100. */
  lemma EmptyWordMatchesEverything(description: string, skills: seq<string>)
    requires "" in Words(description) && skills != []
    ensures MatchedSkills(description, skills) == skills
    ensures RelevanceScore(description, skills) == 100
  {
    var words := Words(description);
    var k :| 0 <= k < |words| && words[k] == "";
    forall s | s in skills ensures MatchesEitherWay(words, s) {
      ContainsEmpty(Lower(s));
    }
    FilterKeepsAll(skills, s => MatchesEitherWay(words, s));
    PercentWithin(|skills|, |skills|);
  }

  /** Matching counts entries: a skill listed twice is matched twice. */
  lemma DuplicatesCountTwice(description: string, skill: string)
    requires MatchesEitherWay(Words(description), skill)
    ensures MatchedSkills(description, [skill, skill]) == [skill, skill]
  {
    var words := Words(description);
    FilterKeepsAll([skill, skill], s => MatchesEitherWay(words, s));
  }
}
