/**
 * `searchJobs` (src/lib/apis/ioNet.ts): the progress trace, extraction of
 * the bracketed span from the reply, the fallback table when that span does
 * not parse, re-scoring of falsy scores and the stable descending sort.
 */
module JobSearch {
  import opened Wrappers
  import opened Text
  import opened Endpoint
  import opened Relevance
  import opened Listings
  import opened Agent

  /** The first index holding `c`. */
  function FirstIndex(s: string, c: char): (r: Option<nat>)
    ensures r.Some? ==> r.value < |s| && s[r.value] == c && forall i :: 0 <= i < r.value ==> s[i] != c
    ensures r.None? ==> forall i :: 0 <= i < |s| ==> s[i] != c
  {
    if s == [] then None
    else if s[0] == c then Some(0)
    else match FirstIndex(s[1..], c)
      case None => None
      case Some(k) => Some(k + 1)
  }

  /** The last index holding `c`. */
  function LastIndex(s: string, c: char): (r: Option<nat>)
    ensures r.Some? ==> r.value < |s| && s[r.value] == c && forall i :: r.value < i < |s| ==> s[i] != c
    ensures r.None? ==> forall i :: 0 <= i < |s| ==> s[i] != c
  {
    if s == [] then None
    else if s[|s| - 1] == c then Some(|s| - 1)
    else LastIndex(s[..|s| - 1], c)
  }

  /**
   * `content.match(/\[[\s\S]*\]/)`: the leftmost, greedy match, which runs
   * from the first `[` to the last `]`; no match when no `]` follows the
   * first `[`.
   */
  function Span(content: string): (r: Option<string>)
    ensures r.Some? ==> var s := r.value; |s| >= 2 && s[0] == '[' && s[|s| - 1] == ']'
    ensures r.Some? ==> exists p :: OccursAt(content, r.value, p)
  {
    match FirstIndex(content, '[')
    case None => None
    case Some(p) =>
      match LastIndex(content, ']')
      case None => None
      case Some(q) =>
        if p < q then
          assert OccursAt(content, content[p..q + 1], p);
          Some(content[p..q + 1])
        else None
  }

  /** A `[` that is followed, somewhere later, by a `]`. */
  predicate BracketPair(content: string, p: int, q: int) {
    0 <= p < q < |content| && content[p] == '[' && content[q] == ']'
  }

  /**
   * The span exists exactly when some `[` precedes some `]`; it then starts
   * at the first `[` of the content and ends at its last `]`.
   */
  lemma SpanIsGreedy(content: string)
    ensures Span(content).Some? <==> exists p, q :: BracketPair(content, p, q)
    ensures Span(content).Some? ==> exists p, q ::
              && BracketPair(content, p, q)
              && Span(content).value == content[p..q + 1]
              && (forall i :: 0 <= i < p ==> content[i] != '[')
              && (forall i :: q < i < |content| ==> content[i] != ']')
  {
    var first, last := FirstIndex(content, '['), LastIndex(content, ']');
    if Span(content).Some? {
      assert BracketPair(content, first.value, last.value);
    }
    forall p, q | BracketPair(content, p, q) ensures Span(content).Some? {
      assert first.Some? && first.value <= p;
      assert last.Some? && q <= last.value;
    }
  }

  /**
   * The value of `jobs` after the inner `try`. Reading the content throws
   * (and the fallback is used) when the reply has no first choice or no
   * content; `[]` stays when there is no span; `parseJobs` is `JSON.parse`
   * on the span, `None` when it throws.
   */
  function ExtractListings(content: Option<string>, parseJobs: string -> Option<seq<Job>>, fallback: seq<Job>): (r: seq<Job>)
    ensures content.None? ==> r == fallback
    ensures content.Some? && (forall p, q :: !BracketPair(content.value, p, q)) ==> r == []
    ensures content.Some? && Span(content.value).Some? && parseJobs(Span(content.value).value).None? ==> r == fallback
    ensures content.Some? && Span(content.value).Some? && parseJobs(Span(content.value).value).Some? ==>
              r == parseJobs(Span(content.value).value).value
  {
    match content
    case None => fallback
    case Some(text) =>
      SpanIsGreedy(text);
      match Span(text)
      case None => []
      case Some(span) =>
        match parseJobs(span)
        case None => fallback
        case Some(jobs) => jobs
  }

  /** `relevanceScore: job.relevanceScore || calculateRelevanceScore(job.description, resumeSkills)`. */
  function ScoreJob(job: Job, skills: seq<string>): (r: Option<Job>)
    ensures r.None? <==> !HasTruthyScore(job) && job.description.None?
    ensures r.Some? ==> r.value == job.(relevanceScore := r.value.relevanceScore) && HasTruthyScore(r.value)
    ensures r.Some? && HasTruthyScore(job) ==> r.value == job
    ensures r.Some? && !HasTruthyScore(job) ==>
              r.value.relevanceScore == Some(RelevanceScore(job.description.value, skills))
  {
    if HasTruthyScore(job) then Some(job)
    else match job.description
      case None => None
      case Some(d) => Some(job.(relevanceScore := Some(RelevanceScore(d, skills))))
  }

  /**
   * `jobs.map(...)`: every listing scored, or `None` when one of them has a
   * falsy score and no description (`undefined.toLowerCase()` throws).
   */
  function ScoreJobs(jobs: seq<Job>, skills: seq<string>): (r: Option<seq<Job>>)
    ensures r.Some? <==> forall j :: j in jobs ==> ScoreJob(j, skills).Some?
    ensures r.Some? ==> |r.value| == |jobs| && forall i :: 0 <= i < |jobs| ==> Some(r.value[i]) == ScoreJob(jobs[i], skills)
  {
    if jobs == [] then Some([])
    else match (ScoreJob(jobs[0], skills), ScoreJobs(jobs[1..], skills))
      case (Some(j), Some(rest)) => Some([j] + rest)
      case _ => None
  }

  /** Listings whose scores are all truthy pass the scoring step unchanged. */
  lemma TruthyScoresKept(jobs: seq<Job>, skills: seq<string>)
    requires forall j :: j in jobs ==> HasTruthyScore(j)
    ensures ScoreJobs(jobs, skills) == Some(jobs)
  {
    assert forall j :: j in jobs ==> ScoreJob(j, skills) == Some(j);
    var r := ScoreJobs(jobs, skills).value;
    forall i | 0 <= i < |jobs| ensures r[i] == jobs[i] {
      assert jobs[i] in jobs;
      assert Some(r[i]) == ScoreJob(jobs[i], skills);
    }
    assert r == jobs;
  }

  /** Every scored listing has a truthy score; kept scores are not clamped to [45, 100]. */
  lemma ScoredJobsHaveTruthyScores(jobs: seq<Job>, skills: seq<string>)
    requires ScoreJobs(jobs, skills).Some?
    ensures forall j :: j in ScoreJobs(jobs, skills).value ==> HasTruthyScore(j)
    ensures forall i :: 0 <= i < |jobs| && !HasTruthyScore(jobs[i]) ==>
              45 <= ScoreOf(ScoreJobs(jobs, skills).value[i]) <= 100
  {
    var r := ScoreJobs(jobs, skills).value;
    forall j | j in r ensures HasTruthyScore(j) {
      var i :| 0 <= i < |r| && r[i] == j;
      assert Some(r[i]) == ScoreJob(jobs[i], skills);
    }
    forall i | 0 <= i < |jobs| && !HasTruthyScore(jobs[i]) ensures 45 <= ScoreOf(r[i]) <= 100 {
      assert Some(r[i]) == ScoreJob(jobs[i], skills);
    }
  }

  predicate SortedByScore(s: seq<Job>) {
    forall i, j :: 0 <= i < j < |s| ==> ScoreOf(s[i]) >= ScoreOf(s[j])
  }

  lemma SortedTail(s: seq<Job>)
    requires s != [] && SortedByScore(s)
    ensures SortedByScore(s[1..])
  {
    var t := s[1..];
    forall i, j | 0 <= i < j < |t| ensures ScoreOf(t[i]) >= ScoreOf(t[j]) {
      assert t[i] == s[i + 1] && t[j] == s[j + 1];
    }
  }

  /** Places `job` before the first listing whose score is not greater, so equal scores keep their order. */
  function Insert(job: Job, sorted: seq<Job>): (r: seq<Job>)
    ensures |r| == |sorted| + 1
  {
    if sorted == [] || ScoreOf(sorted[0]) <= ScoreOf(job) then [job] + sorted
    else [sorted[0]] + Insert(job, sorted[1..])
  }

  /** Inserting adds `job` and keeps every other listing. */
  lemma {:induction false} InsertPermutes(job: Job, sorted: seq<Job>)
    ensures multiset(Insert(job, sorted)) == multiset(sorted) + multiset{job}
  {
    if sorted != [] && ScoreOf(sorted[0]) > ScoreOf(job) {
      InsertPermutes(job, sorted[1..]);
      assert sorted == [sorted[0]] + sorted[1..];
    }
  }

  /**
   * `sort((a, b) => b.relevanceScore - a.relevanceScore)`: descending by
   * score; the sort is stable, so listings with equal scores keep their order.
   */
  function SortByScore(s: seq<Job>): (r: seq<Job>)
    ensures |r| == |s|
    ensures multiset(r) == multiset(s)
    ensures SortedByScore(r)
  {
    if s == [] then []
    else
      var sorted := SortByScore(s[1..]);
      InsertPermutes(s[0], sorted);
      InsertKeepsSorted(s[0], sorted);
      assert s == [s[0]] + s[1..];
      Insert(s[0], sorted)
  }

  lemma {:induction false} InsertKeepsSorted(job: Job, sorted: seq<Job>)
    requires SortedByScore(sorted)
    ensures SortedByScore(Insert(job, sorted))
    ensures Insert(job, sorted) != [] && forall x :: x in Insert(job, sorted) ==> x == job || x in sorted
  {
    if sorted != [] && ScoreOf(sorted[0]) > ScoreOf(job) {
      InsertKeepsSorted(job, sorted[1..]);
      var r := Insert(job, sorted);
      var tail := Insert(job, sorted[1..]);
      assert r == [sorted[0]] + tail;
      forall x | x in tail ensures ScoreOf(sorted[0]) >= ScoreOf(x) {
        if x != job {
          var k :| 0 <= k < |sorted[1..]| && sorted[1..][k] == x;
          assert sorted[k + 1] == x;
        }
      }
      forall i, j | 0 <= i < j < |r| ensures ScoreOf(r[i]) >= ScoreOf(r[j]) {
        if i == 0 {
          assert r[j] in tail;
        } else {
          assert r[i] == tail[i - 1] && r[j] == tail[j - 1];
        }
      }
    }
  }

  /** The listings with score `v`, in their order. */
  function WithScore(s: seq<Job>, v: int): seq<Job> {
    if s == [] then [] else (if ScoreOf(s[0]) == v then [s[0]] else []) + WithScore(s[1..], v)
  }

  lemma WithScoreCons(x: Job, t: seq<Job>, v: int)
    ensures WithScore([x] + t, v) == (if ScoreOf(x) == v then [x] else []) + WithScore(t, v)
  {
    assert ([x] + t)[1..] == t;
  }

  lemma {:induction false} InsertKeepsTies(job: Job, sorted: seq<Job>, v: int)
    requires SortedByScore(sorted)
    ensures WithScore(Insert(job, sorted), v) == (if ScoreOf(job) == v then [job] else []) + WithScore(sorted, v)
  {
    var mine := if ScoreOf(job) == v then [job] else [];
    if sorted == [] || ScoreOf(sorted[0]) <= ScoreOf(job) {
      assert Insert(job, sorted) == [job] + sorted;
      WithScoreCons(job, sorted, v);
      assert WithScore(Insert(job, sorted), v) == mine + WithScore(sorted, v);
    } else {
      var head, tail := sorted[0], sorted[1..];
      assert Insert(job, sorted) == [head] + Insert(job, tail);
      assert sorted == [head] + tail;
      SortedTail(sorted);
      InsertKeepsTies(job, tail, v);
      WithScoreCons(head, Insert(job, tail), v);
      WithScoreCons(head, tail, v);
      if ScoreOf(head) == v {
        // a listing scoring `v` at the head outranks `job`, so `job` does not score `v`
        assert mine == [];
        assert WithScore(Insert(job, sorted), v) == [head] + WithScore(tail, v) == WithScore(sorted, v);
        assert mine + WithScore(sorted, v) == WithScore(sorted, v);
      } else {
        assert WithScore(Insert(job, sorted), v) == mine + WithScore(tail, v);
        assert WithScore(sorted, v) == WithScore(tail, v);
      }
    }
  }

  /** Stability: for every score, the listings with that score appear in their original order. */
  lemma {:induction false} SortIsStable(s: seq<Job>, v: int)
    ensures WithScore(SortByScore(s), v) == WithScore(s, v)
  {
    if s != [] {
      SortIsStable(s[1..], v);
      InsertKeepsTies(s[0], SortByScore(s[1..]), v);
    }
  }

  /** Input that is already in non-increasing order comes back unchanged. */
  lemma {:induction false} SortedInputUnchanged(s: seq<Job>)
    requires SortedByScore(s)
    ensures SortByScore(s) == s
  {
    if s != [] {
      var t := s[1..];
      SortedTail(s);
      SortedInputUnchanged(t);
      if t != [] {
        assert t[0] == s[1];
      }
      assert Insert(s[0], t) == [s[0]] + t;
      assert [s[0]] + t == s;
    }
  }

  /** When the span does not parse, the stage returns the fallback table exactly in its generated order. */
  lemma FallbackComesBackInOrder(query: string, location: string, skills: seq<string>, now: int, isoDay: int -> string)
    ensures var table := GenerateFallbackJobs(query, location, skills, now, isoDay);
      && ScoreJobs(table, skills) == Some(table)
      && SortByScore(table) == table
  {
    var table := GenerateFallbackJobs(query, location, skills, now, isoDay);
    FallbackScoresNonIncreasing(query, location, skills, now, isoDay);
    assert forall j :: j in table ==> HasTruthyScore(j);
    TruthyScoresKept(table, skills);
    SortedInputUnchanged(table);
  }

  /** The inner `try` of the search stage: read the content, match the span, parse it, or fall back. */
  method ReadListings(query: string, location: string, skills: seq<string>, content: Option<string>,
                      parseJobs: string -> Option<seq<Job>>, now: int, isoDay: int -> string)
    returns (jobs: seq<Job>)
    ensures jobs == ExtractListings(content, parseJobs, GenerateFallbackJobs(query, location, skills, now, isoDay))
  {
    jobs := [];
    if content.None? {
      // reading `choices[0].message.content.match` throws inside the inner `try`
      jobs := GenerateFallbackJobs(query, location, skills, now, isoDay);
    } else {
      var jsonMatch := Span(content.value);
      if jsonMatch.Some? {
        var parsed := parseJobs(jsonMatch.value);
        if parsed.Some? {
          jobs := parsed.value;
        } else {
          jobs := GenerateFallbackJobs(query, location, skills, now, isoDay);
        }
      }
    }

  }

  /** The six updates sent once the reply has been read: steps 2 to 4 completed in turn, then step 5. */
  method ReportProgress(reporter: Reporter)
    modifies reporter
    ensures reporter.trace == old(reporter.trace) + SuccessTrace()[2..]
  {
    reporter.Report(WithStatus(Steps[1], Completed));
    reporter.Report(WithStatus(Steps[2], InProgress));
    reporter.Report(WithStatus(Steps[2], Completed));
    reporter.Report(WithStatus(Steps[3], InProgress));
    reporter.Report(WithStatus(Steps[3], Completed));
    reporter.Report(WithStatus(Steps[4], Completed));
  }

  /**
   * The search stage with the endpoint's outcome, `JSON.parse` on the span
   * and the clock as inputs; every update is sent to `reporter`.
   */
  method SearchJobs(query: string, location: string, skills: seq<string>, response: Completion,
                    parseJobs: string -> Option<seq<Job>>, now: int, isoDay: int -> string, reporter: Reporter)
    returns (r: Result<seq<Job>, Failure>)
    modifies reporter
    ensures (response.HttpError? || response.FetchFailed? || response.BodyNotJson?) ==>
              && reporter.trace == old(reporter.trace) + SearchStarted() + [FailureReport()]
              && r == Failure(TransportFailure(response))
    ensures (response.Reply? || response.NoChoice?) ==>
              var content := if response.Reply? then StringContent(response.content) else None;
              var listings := ExtractListings(content, parseJobs, GenerateFallbackJobs(query, location, skills, now, isoDay));
              match ScoreJobs(listings, skills)
              case None =>
                && reporter.trace == old(reporter.trace) + SuccessTrace() + [FailureReport()]
                && r == Failure(TypeError)
              case Some(scored) =>
                && reporter.trace == old(reporter.trace) + SuccessTrace()
                && r == Success(SortByScore(scored))
  {
    ghost var before := reporter.trace;
    reporter.Report(Steps[0]);
    reporter.Report(Steps[1]);
    assert reporter.trace == before + SearchStarted();

    if response.HttpError? || response.FetchFailed? || response.BodyNotJson? {
      // `!searchResponse.ok`, a rejected `fetch`, or a body that is not JSON
      reporter.Report(FailureReport());
      return Failure(TransportFailure(response));
    }

    ReportProgress(reporter);
    var success := SuccessTrace();
    assert success == success[..2] + success[2..];
    assert reporter.trace == old(reporter.trace) + SuccessTrace();

    var content := if response.Reply? then StringContent(response.content) else None;
    var jobs := ReadListings(query, location, skills, content, parseJobs, now, isoDay);

    var scored := ScoreJobs(jobs, skills);
    if scored.None? {
      // `calculateRelevanceScore(undefined, ...)` throws in the outer `try`
      reporter.Report(FailureReport());
      return Failure(TypeError);
    }
    jobs := SortByScore(scored.value);
    return Success(jobs);
  }
}
