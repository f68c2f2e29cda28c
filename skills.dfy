/** `extractSkillsFromText` (src/lib/apis/ioNet.ts): keyword matching against a fixed vocabulary. */
module Skills {
  import opened Text
  import opened Seqs

  /** The fixed vocabulary, in the order the extractor scans it. */
  const Vocabulary: seq<string> := [
    "JavaScript", "TypeScript", "React", "Node.js", "Python", "Java", "C++", "HTML", "CSS",
    "SQL", "MongoDB", "PostgreSQL", "AWS", "Docker", "Kubernetes", "Git", "Agile", "Scrum",
    "Machine Learning", "Data Analysis", "Project Management", "Leadership", "Communication"
  ]

  /** At most this many skills are extracted. */
  const MaxExtracted := 10

  /** `text.toLowerCase().includes(skill.toLowerCase())`. */
  predicate Mentions(text: string, skill: string) {
    Contains(Lower(text), Lower(skill))
  }

  lemma VocabularyDistinct()
    ensures |Vocabulary| == 23 && Distinct(Vocabulary)
  {
  }

  /** What a `slice(0, k)` of a filtered duplicate-free list guarantees. */
  lemma TakeFilterFacts(v: seq<string>, p: string -> bool, k: nat)
    requires Distinct(v)
    ensures var r := Take(Filter(v, p), k);
      && (forall s :: s in r ==> s in v && p(s))
      && IsSubsequence(r, v) && Distinct(r)
      && (|r| < k ==> forall s :: s in v && p(s) ==> s in r)
      && (forall i, j :: 0 <= i < j < |v| && p(v[i]) && v[j] in r ==> v[i] in r)
  {
    var f := Filter(v, p);
    var r := Take(f, k);
    FilterIsSubsequence(v, p);
    PrefixIsSubsequence(f, v, |r|);
    SubsequenceOfDistinct(r, v);
    SubsequenceMembers(r, v);
    forall i, j | 0 <= i < j < |v| && p(v[i]) && v[j] in r
      ensures v[i] in r
    {
      TakeFilterSkipsNothing(v, p, k, i, j);
    }
  }

  /**
   * Scans `cands` in order and keeps the first `room` entries the text
   * mentions: the loop of `filter` followed by `slice(0, room)`.
   */
  function FirstMentioned(text: string, cands: seq<string>, room: nat): (r: seq<string>)
    ensures |r| <= room
    ensures forall s :: s in r ==> s in cands && Mentions(text, s)
  {
    if cands == [] || room == 0 then []
    else if Mentions(text, cands[0]) then [cands[0]] + FirstMentioned(text, cands[1..], room - 1)
    else FirstMentioned(text, cands[1..], room)
  }

  /** The scan is `filter` followed by `slice(0, room)`. */
  lemma {:induction false} FirstMentionedIsTakeFilter(text: string, cands: seq<string>, room: nat)
    ensures FirstMentioned(text, cands, room) == Take(Filter(cands, s => Mentions(text, s)), room)
  {
    var p := s => Mentions(text, s);
    if cands != [] && room != 0 {
      FirstMentionedIsTakeFilter(text, cands[1..], if p(cands[0]) then room - 1 else room);
      var f := Filter(cands[1..], p);
      if p(cands[0]) {
        assert Filter(cands, p) == [cands[0]] + f;
        assert Take([cands[0]] + f, room) == [cands[0]] + Take(f, room - 1);
      } else {
        assert Filter(cands, p) == f;
      }
    }
  }

  /**
   * The first (at most ten) vocabulary entries the text mentions: a
   * duplicate-free subsequence of the vocabulary in its order, each entry
   * mentioned in the text.
   */
  function ExtractSkills(text: string): (r: seq<string>)
    ensures |r| <= MaxExtracted
    ensures forall s :: s in r ==> s in Vocabulary && Mentions(text, s)
    ensures IsSubsequence(r, Vocabulary) && Distinct(r)
  {
    VocabularyDistinct();
    TakeFilterFacts(Vocabulary, s => Mentions(text, s), MaxExtracted);
    FirstMentionedIsTakeFilter(text, Vocabulary, MaxExtracted);
    FirstMentioned(text, Vocabulary, MaxExtracted)
  }

  /**
   * The extractor skips no mentioned entry before its cut-off: every
   * mentioned entry is returned when fewer than ten are, and every mentioned
   * entry that precedes a returned one is returned too.
   */
  lemma ExtractSkillsSkipsNothing(text: string)
    ensures var r := ExtractSkills(text);
      && (|r| < MaxExtracted ==> forall s :: s in Vocabulary && Mentions(text, s) ==> s in r)
      && (forall i, j :: 0 <= i < j < |Vocabulary| && Mentions(text, Vocabulary[i]) && Vocabulary[j] in r ==>
                           Vocabulary[i] in r)
  {
    VocabularyDistinct();
    TakeFilterFacts(Vocabulary, s => Mentions(text, s), MaxExtracted);
    FirstMentionedIsTakeFilter(text, Vocabulary, MaxExtracted);
  }
}
