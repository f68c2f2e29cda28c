/**
 * Job listings (`JobListing` in src/lib/apis/ioNet.ts) and the
 * deterministic table `generateFallbackJobs` builds when the search reply
 * cannot be parsed.
 */
module Listings {
  import opened Wrappers
  import opened Arith
  import opened Text
  import opened Seqs

  /**
   * A listing as the search stage handles it. `description` and
   * `relevanceScore` are `None` when the parsed element lacks them (the
   * only two properties the stage reads); a score is a JavaScript number,
   * modelled as an integer.
   */
  datatype Job = Job(
    id: string,
    title: string,
    company: string,
    location: string,
    description: Option<string>,
    salary: Option<string>,
    url: string,
    relevanceScore: Option<int>,
    postedDate: string,
    requirements: seq<string>,
    benefits: seq<string>)

  /** `job.relevanceScore` is truthy: present and not zero. */
  predicate HasTruthyScore(job: Job) {
    job.relevanceScore.Some? && job.relevanceScore.value != 0
  }

  /** The number the sort comparator subtracts; only used on scored listings. */
  function ScoreOf(job: Job): int {
    job.relevanceScore.GetOr(0)
  }

  const FallbackCount := 8
  const Companies: seq<string> := ["TechCorp", "InnovateLabs", "DataSystems", "CloudWorks", "DevStudio", "AI Solutions"]
  const Levels: seq<string> := ["Senior", "Mid-Level", "Junior"]
  const Benefits: seq<string> := ["Health Insurance", "Remote Work", "401k", "Flexible Hours"]
  const MillisPerDay := 24 * 60 * 60 * 1000

  /** The five location slots; the first is the requested location, or `"Remote"` when it is empty. */
  function Locations(location: string): (r: seq<string>)
    ensures |r| == 5
    ensures r[0] == (if location == "" then "Remote" else location)
    ensures r[1..] == ["San Francisco, CA", "New York, NY", "Austin, TX", "Seattle, WA"]
  {
    [if location == "" then "Remote" else location, "San Francisco, CA", "New York, NY", "Austin, TX", "Seattle, WA"]
  }

  /** `Math.max(95 - i * 8, 50)`. */
  function FallbackScore(i: nat): (r: int)
    ensures 50 <= r <= 95
    ensures i <= 5 ==> r == 95 - 8 * i
    ensures i >= 6 ==> r == 50
  {
    Max(95 - i * 8, 50)
  }

  /** `$${60000 + i * 10000} - $${80000 + i * 15000}`: a dollar range, both ends written in decimal. */
  function FallbackSalary(i: nat): (r: string)
    ensures exists lo, hi :: r == "$" + lo + " - $" + hi && IsDecimalOf(lo, 60000 + i * 10000) && IsDecimalOf(hi, 80000 + i * 15000)
  {
    var lo, hi := DecimalString(60000 + i * 10000), DecimalString(80000 + i * 15000);
    assert IsDecimalOf(lo, 60000 + i * 10000) && IsDecimalOf(hi, 80000 + i * 15000);
    "$" + lo + " - $" + hi
  }

  const DescriptionOpening := "We are seeking a talented "
  const DescriptionMiddle := " to join our dynamic team. This role involves working with "
    + "cutting-edge technologies and collaborating with cross-functional teams to deliver innovative solutions. "
    + "The ideal candidate will have experience with "
  const DescriptionClosing := " and a passion for continuous learning."

  /** The description template, naming the first three skills. */
  function FallbackDescription(query: string, skills: seq<string>): string {
    DescriptionOpening + query + DescriptionMiddle + Join(Take(skills, 3), ", ") + DescriptionClosing
  }

  /** The description names the query, right after its opening words, and each of the first three skills. */
  lemma FallbackDescriptionMentions(query: string, skills: seq<string>)
    ensures OccursAt(FallbackDescription(query, skills), query, |DescriptionOpening|)
    ensures forall k :: 0 <= k < Min(3, |skills|) ==> Contains(FallbackDescription(query, skills), skills[k])
  {
    TemplateMentions(DescriptionOpening, query, DescriptionMiddle, Take(skills, 3), DescriptionClosing);
  }

  /** A text `opening + query + middle + parts.join(', ') + closing` names the query and every part. */
  lemma TemplateMentions(opening: string, query: string, middle: string, parts: seq<string>, closing: string)
    ensures OccursAt(opening + query + middle + Join(parts, ", ") + closing, query, |opening|)
    ensures forall k :: 0 <= k < |parts| ==> Contains(opening + query + middle + Join(parts, ", ") + closing, parts[k])
  {
    var list := Join(parts, ", ");
    var d := opening + query + middle + list + closing;
    assert OccursAt(query, query, 0);
    OccursInRight(opening, query, query, 0);
    OccursInLeft(opening + query, middle + list + closing, query, |opening|);
    assert opening + query + (middle + list + closing) == d;
    forall k | 0 <= k < |parts| ensures Contains(d, parts[k]) {
      var q := JoinHasParts(parts, ", ", k);
      var before := opening + query + middle;
      OccursInRight(before, list, parts[k], q);
      OccursInLeft(before + list, closing, parts[k], |before| + q);
      ContainsAt(d, parts[k]);
    }
  }

  /** What listing `i` of the fallback table holds, field by field. */
  predicate IsFallbackListing(job: Job, query: string, location: string, skills: seq<string>, now: int, isoDay: int -> string, i: nat) {
    && i < FallbackCount
    && job.id == "fallback-" + [DigitChar(i)]
    && job.title == query + " - " + Levels[i % 3]
    && job.company == Companies[i % 6]
    && job.location == Locations(location)[i % 5]
    && job.description == Some(FallbackDescription(query, skills))
    && job.salary == Some(FallbackSalary(i))
    && job.url == "https://example.com/job/" + [DigitChar(i)]
    && job.relevanceScore == Some(FallbackScore(i))
    && job.postedDate == isoDay(now - i * MillisPerDay)
    && job.requirements == Take(skills, 4)
    && job.benefits == Benefits
  }

  /**
   * Listing `i` of the fallback table. `now` stands for `Date.now()` and
   * `isoDay` for `toISOString().split('T')[0]` on a millisecond instant.
   */
  function FallbackJob(query: string, location: string, skills: seq<string>, now: int, isoDay: int -> string, i: nat): (job: Job)
    requires i < FallbackCount
    ensures IsFallbackListing(job, query, location, skills, now, isoDay, i)
    ensures |job.requirements| <= 4
  {
    Job(
      id := "fallback-" + DecimalString(i),
      title := query + " - " + Levels[i % 3],
      company := Companies[i % |Companies|],
      location := Locations(location)[i % |Locations(location)|],
      description := Some(FallbackDescription(query, skills)),
      salary := Some(FallbackSalary(i)),
      url := "https://example.com/job/" + DecimalString(i),
      relevanceScore := Some(FallbackScore(i)),
      postedDate := isoDay(now - i * MillisPerDay),
      requirements := Take(skills, 4),
      benefits := Benefits)
  }

  /** `generateFallbackJobs`: the eight-entry table, listing `i` at index `i`. */
  function GenerateFallbackJobs(query: string, location: string, skills: seq<string>, now: int, isoDay: int -> string): (r: seq<Job>)
    ensures |r| == FallbackCount
  {
    seq(FallbackCount, i requires 0 <= i < FallbackCount => FallbackJob(query, location, skills, now, isoDay, i))
  }

  /** Listing `i` of the table is the fallback listing for `i`, field by field. */
  lemma FallbackTable(query: string, location: string, skills: seq<string>, now: int, isoDay: int -> string)
    ensures var r := GenerateFallbackJobs(query, location, skills, now, isoDay);
      forall i :: 0 <= i < |r| ==> IsFallbackListing(r[i], query, location, skills, now, isoDay, i)
  {
  }

  /** The fallback scores, in order: 95, 87, 79, 71, 63, 55, 50, 50. */
  lemma FallbackScoreValues(i: nat)
    requires i < FallbackCount
    ensures FallbackScore(i) == [95, 87, 79, 71, 63, 55, 50, 50][i]
  {
    var table := [95, 87, 79, 71, 63, 55, 50, 50];
    if i <= 5 {
      assert table[i] == 95 - 8 * i;
    } else {
      assert table[i] == 50;
    }
  }

  /** The scores of the table, in order: 95, 87, 79, 71, 63, 55, 50, 50. */
  lemma FallbackScoresTable(query: string, location: string, skills: seq<string>, now: int, isoDay: int -> string)
    ensures var r := GenerateFallbackJobs(query, location, skills, now, isoDay);
      forall i :: 0 <= i < |r| ==> r[i].relevanceScore == Some([95, 87, 79, 71, 63, 55, 50, 50][i])
  {
    var r := GenerateFallbackJobs(query, location, skills, now, isoDay);
    FallbackTable(query, location, skills, now, isoDay);
    forall i | 0 <= i < |r| ensures r[i].relevanceScore == Some([95, 87, 79, 71, 63, 55, 50, 50][i]) {
      assert r[i].relevanceScore == Some(FallbackScore(i));
      FallbackScoreValues(i);
    }
  }

  /** Scores never increase along the table, stay at least 50, and are all truthy. */
  lemma FallbackScoresNonIncreasing(query: string, location: string, skills: seq<string>, now: int, isoDay: int -> string)
    ensures var r := GenerateFallbackJobs(query, location, skills, now, isoDay);
      && (forall i, j :: 0 <= i < j < |r| ==> ScoreOf(r[i]) >= ScoreOf(r[j]))
      && (forall i :: 0 <= i < |r| ==> HasTruthyScore(r[i]) && ScoreOf(r[i]) >= 50 && r[i].description.Some?)
  {
    var r := GenerateFallbackJobs(query, location, skills, now, isoDay);
    FallbackTable(query, location, skills, now, isoDay);
    forall i | 0 <= i < |r| ensures ScoreOf(r[i]) == FallbackScore(i) >= 50 && r[i].description.Some? {
      assert r[i].relevanceScore == Some(FallbackScore(i));
    }
    forall i, j | 0 <= i < j < |r| ensures ScoreOf(r[i]) >= ScoreOf(r[j]) {
      assert FallbackScore(i) >= FallbackScore(j);
    }
  }

  /** Two strings that differ only in their last character differ. */
  lemma SuffixDistinguishes(prefix: string, a: char, b: char)
    requires a != b
    ensures prefix + [a] != prefix + [b]
  {
    assert (prefix + [a])[|prefix|] == a;
  }

  /** The ids `fallback-0` .. `fallback-7` are pairwise different. */
  lemma FallbackIdsDistinct(query: string, location: string, skills: seq<string>, now: int, isoDay: int -> string)
    ensures var r := GenerateFallbackJobs(query, location, skills, now, isoDay);
      forall i, j :: 0 <= i < j < |r| ==> r[i].id != r[j].id
  {
    var r := GenerateFallbackJobs(query, location, skills, now, isoDay);
    FallbackTable(query, location, skills, now, isoDay);
    forall i, j | 0 <= i < j < |r| ensures r[i].id != r[j].id {
      SuffixDistinguishes("fallback-", DigitChar(i), DigitChar(j));
    }
  }
}
