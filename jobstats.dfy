/**
 * The summary line of `JobResults` (src/components/JobResults.tsx):
 * nothing for an empty list, otherwise the listing count, the rounded mean
 * score, the number of strong matches and the number of distinct locations.
 */
module JobStats {
  import opened Wrappers
  import opened Arith
  import opened Seqs
  import opened Listings

  datatype Summary = Summary(jobCount: nat, avgRelevance: int, topJobs: nat, locations: nat)

  /** A strong match scores at least 80. */
  const TopScore := 80

  predicate IsTop(job: Job) {
    ScoreOf(job) >= TopScore
  }

  /** `jobs.reduce((sum, job) => sum + job.relevanceScore, 0)`. */
  function TotalScore(jobs: seq<Job>): int {
    if jobs == [] then 0 else TotalScore(jobs[..|jobs| - 1]) + ScoreOf(jobs[|jobs| - 1])
  }

  /** The total does not depend on how the list is split: the fold over `a + b` is the fold over `a` plus the fold over `b`. */
  lemma {:induction false} TotalOfAppend(a: seq<Job>, b: seq<Job>)
    ensures TotalScore(a + b) == TotalScore(a) + TotalScore(b)
    decreases |b|
  {
    if b != [] {
      var init := b[..|b| - 1];
      TotalOfAppend(a, init);
      assert (a + b)[..|a + b| - 1] == a + init;
    } else {
      assert a + b == a;
    }
  }

  /** Folding from the front gives the same total: the first score plus the total of the rest. */
  lemma TotalFromFront(jobs: seq<Job>)
    requires jobs != []
    ensures TotalScore(jobs) == ScoreOf(jobs[0]) + TotalScore(jobs[1..])
  {
    TotalOfAppend([jobs[0]], jobs[1..]);
    assert [jobs[0]] + jobs[1..] == jobs;
    assert TotalScore([jobs[0]]) == TotalScore([]) + ScoreOf(jobs[0]);
  }

  function MinScore(jobs: seq<Job>): (r: int)
    requires jobs != []
    ensures forall j :: j in jobs ==> r <= ScoreOf(j)
    ensures exists j :: j in jobs && r == ScoreOf(j)
  {
    if |jobs| == 1 then ScoreOf(jobs[0]) else Min(ScoreOf(jobs[0]), MinScore(jobs[1..]))
  }

  function MaxScore(jobs: seq<Job>): (r: int)
    requires jobs != []
    ensures forall j :: j in jobs ==> ScoreOf(j) <= r
    ensures exists j :: j in jobs && r == ScoreOf(j)
  {
    if |jobs| == 1 then ScoreOf(jobs[0]) else Max(ScoreOf(jobs[0]), MaxScore(jobs[1..]))
  }

  /** The distinct locations, as `new Set(jobs.map(job => job.location))`. */
  function LocationSet(jobs: seq<Job>): set<string> {
    set j | j in jobs :: j.location
  }

  lemma MulSucc(a: int, n: int)
    ensures a * (n + 1) == a * n + a
  {
  }

  /** Bounding every score bounds the total. */
  lemma {:induction false} TotalWithin(jobs: seq<Job>, lo: int, hi: int)
    requires forall j :: j in jobs ==> lo <= ScoreOf(j) <= hi
    ensures lo * |jobs| <= TotalScore(jobs) <= hi * |jobs|
  {
    if jobs != [] {
      var init, last := jobs[..|jobs| - 1], jobs[|jobs| - 1];
      assert forall j :: j in init ==> j in jobs;
      TotalWithin(init, lo, hi);
      assert last in jobs;
      assert TotalScore(jobs) == TotalScore(init) + ScoreOf(last);
      var n := |init|;
      assert lo * (n + 1) == lo * n + lo by { MulSucc(lo, n); }
      assert hi * (n + 1) == hi * n + hi by { MulSucc(hi, n); }
    }
  }

  /** A list of `n` listings has at most `n` distinct locations, and at least one when non-empty. */
  lemma {:induction false} LocationCount(jobs: seq<Job>)
    ensures |LocationSet(jobs)| <= |jobs|
    ensures jobs != [] ==> |LocationSet(jobs)| >= 1
  {
    if jobs != [] {
      var rest := jobs[1..];
      LocationCount(rest);
      assert LocationSet(jobs) == LocationSet(rest) + {jobs[0].location} by {
        forall x | x in LocationSet(jobs) ensures x in LocationSet(rest) + {jobs[0].location} {
          var j :| j in jobs && j.location == x;
          if j != jobs[0] {
            var k :| 0 <= k < |jobs| && jobs[k] == j;
            assert rest[k - 1] == j;
          }
        }
      }
      assert jobs[0].location in LocationSet(jobs);
    }
  }

  /**
   * The statistics, or `None` where the component returns `null` before
   * computing any of them. Every listing the component receives is scored.
   */
  function Summarize(jobs: seq<Job>): (r: Option<Summary>)
    requires forall j :: j in jobs ==> j.relevanceScore.Some?
    ensures r.None? <==> jobs == []
    ensures r.Some? ==>
              && r.value.jobCount == |jobs|
              && |jobs| * (2 * r.value.avgRelevance - 1) <= 2 * TotalScore(jobs) < |jobs| * (2 * r.value.avgRelevance + 1)
              && r.value.topJobs == |set i | 0 <= i < |jobs| && IsTop(jobs[i])|
              && r.value.topJobs <= r.value.jobCount
              && r.value.locations == |set j | j in jobs :: j.location|
              && 1 <= r.value.locations <= r.value.jobCount
  {
    if jobs == [] then None
    else
      var n, total := |jobs|, TotalScore(jobs);
      var avg := RoundHalfUp(total, n);
      assert n * (2 * avg - 1) <= 2 * total < n * (2 * avg + 1) by {
        RoundIsNearest(total, n);
      }
      LocationCount(jobs);
      TopJobsArePositions(jobs, 0);
      assert jobs[0..] == jobs;
      Some(Summary(
        jobCount := n,
        avgRelevance := avg,
        topJobs := |Filter(jobs, IsTop)|,
        locations := |LocationSet(jobs)|))
  }

  /** The strong matches from position `k` on are counted by position, so equal listings count once each. */
  lemma {:induction false} TopJobsArePositions(jobs: seq<Job>, k: nat)
    requires k <= |jobs|
    ensures |Filter(jobs[k..], IsTop)| == |set i | k <= i < |jobs| && IsTop(jobs[i])|
    decreases |jobs| - k
  {
    if k < |jobs| {
      TopJobsArePositions(jobs, k + 1);
      assert jobs[k..][1..] == jobs[k + 1..];
      var later := set i | k + 1 <= i < |jobs| && IsTop(jobs[i]);
      var here: set<int> := if IsTop(jobs[k]) then {k} else {};
      assert (set i | k <= i < |jobs| && IsTop(jobs[i])) == here + later;
      assert here !! later;
    }
  }

  /** The average lies between the lowest and the highest score. */
  lemma AverageWithinScores(jobs: seq<Job>)
    requires jobs != [] && forall j :: j in jobs ==> j.relevanceScore.Some?
    ensures MinScore(jobs) <= Summarize(jobs).value.avgRelevance <= MaxScore(jobs)
  {
    TotalWithin(jobs, MinScore(jobs), MaxScore(jobs));
    RoundWithin(TotalScore(jobs), |jobs|, MinScore(jobs), MaxScore(jobs));
  }

  /** When every listing has the same score, that score is the average. */
  lemma AverageOfEqualScores(jobs: seq<Job>, s: int)
    requires jobs != [] && forall j :: j in jobs ==> j.relevanceScore == Some(s)
    ensures Summarize(jobs).value.avgRelevance == s
  {
    TotalWithin(jobs, s, s);
    RoundWhole(s, |jobs|);
  }

  /** The strong-match count is the whole list exactly when every listing scores at least 80, and zero exactly when none does. */
  lemma TopJobsExtremes(jobs: seq<Job>)
    requires jobs != [] && forall j :: j in jobs ==> j.relevanceScore.Some?
    ensures Summarize(jobs).value.topJobs == |jobs| <==> forall j :: j in jobs ==> IsTop(j)
    ensures Summarize(jobs).value.topJobs == 0 <==> forall j :: j in jobs ==> !IsTop(j)
  {
    var f := Filter(jobs, IsTop);
    if forall j :: j in jobs ==> IsTop(j) {
      FilterKeepsAll(jobs, IsTop);
    } else {
      var x :| x in jobs && !IsTop(x);
      FilterSkips(jobs, IsTop, x);
    }
    if forall j :: j in jobs ==> !IsTop(j) {
      FilterKeepsNone(jobs, IsTop);
    } else {
      var x :| x in jobs && IsTop(x);
      assert x in f;
    }
  }

  /** Leaving out an element that fails the predicate makes the filtered list shorter than the list. */
  lemma {:induction false} FilterSkips(s: seq<Job>, p: Job -> bool, x: Job)
    requires x in s && !p(x)
    ensures |Filter(s, p)| < |s|
  {
    if s[0] == x {
      assert Filter(s, p) == Filter(s[1..], p);
    } else {
      FilterSkips(s[1..], p, x);
    }
  }
}
