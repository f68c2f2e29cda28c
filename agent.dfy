/**
 * The progress trace of `searchJobs` (src/lib/apis/ioNet.ts): the five
 * fixed steps, the updates reported through `onStepUpdate`, and the report
 * sent when the search fails.
 */
module Agent {
  import opened Wrappers

  datatype Status = Pending | InProgress | Completed | Failed

  /** `AgentStep`; the timestamp is a fixed instant, kept as its ISO text. */
  datatype AgentStep = AgentStep(
    id: string,
    step: string,
    status: Status,
    description: string,
    timestamp: string,
    details: Option<string>)

  const FixedTimestamp := "2025-07-08T16:29:00.000Z"
  const FailureDescription := "Job search failed. Please try again."

  /** The local `steps` array; it is never modified. */
  const Steps: seq<AgentStep> := [
    AgentStep("1", "initialize", Completed, "Resume analysis complete", FixedTimestamp, None),
    AgentStep("2", "search", InProgress, "Searching job databases...", FixedTimestamp, None),
    AgentStep("3", "analyze", Pending, "Analyzing job relevance", FixedTimestamp, None),
    AgentStep("4", "rank", Pending, "Ranking by compatibility", FixedTimestamp, None),
    AgentStep("5", "complete", Pending, "Results ready", FixedTimestamp, None)
  ]

  /** `{ ...step, status }`. */
  function WithStatus(step: AgentStep, status: Status): (r: AgentStep)
    ensures r.status == status
    ensures r.id == step.id && r.step == step.step && r.description == step.description
    ensures r.timestamp == step.timestamp && r.details == step.details
  {
    step.(status := status)
  }

  /** The two updates issued before the request: steps 1 and 2 as declared. */
  function SearchStarted(): (r: seq<AgentStep>)
    ensures |r| == 2 && r == Steps[..2]
  {
    [Steps[0], Steps[1]]
  }

  /** All eight updates of a search whose reply arrives and is read as JSON. */
  function SuccessTrace(): (r: seq<AgentStep>)
    ensures |r| == 8 && r[..2] == SearchStarted()
  {
    [
      Steps[0],
      Steps[1],
      WithStatus(Steps[1], Completed),
      WithStatus(Steps[2], InProgress),
      WithStatus(Steps[2], Completed),
      WithStatus(Steps[3], InProgress),
      WithStatus(Steps[3], Completed),
      WithStatus(Steps[4], Completed)
    ]
  }

  /** The (id, status) pairs the success trace reports, in order. */
  lemma SuccessTraceShape()
    ensures var t := SuccessTrace();
      && seq(|t|, i requires 0 <= i < |t| => t[i].id) == ["1", "2", "2", "3", "3", "4", "4", "5"]
      && seq(|t|, i requires 0 <= i < |t| => t[i].status)
           == [Completed, InProgress, Completed, InProgress, Completed, InProgress, Completed, Completed]
  {
  }

  /** `steps.find(pred)`: the first element satisfying `pred`. */
  function Find(s: seq<AgentStep>, pred: AgentStep -> bool): (r: Option<AgentStep>)
    ensures r.Some? ==> r.value in s && pred(r.value)
    ensures r.Some? ==> exists i :: 0 <= i < |s| && s[i] == r.value && forall j :: 0 <= j < i ==> !pred(s[j])
    ensures r.None? ==> forall x :: x in s ==> !pred(x)
  {
    if s == [] then None
    else if pred(s[0]) then Some(s[0])
    else
      var r := Find(s[1..], pred);
      if r.Some? then
        var i :| 0 <= i < |s[1..]| && s[1..][i] == r.value && forall j :: 0 <= j < i ==> !pred(s[1..][j]);
        assert forall j :: 0 <= j < i + 1 ==> !pred(s[j]) by {
          assert forall j :: 1 <= j < i + 1 ==> s[j] == s[1..][j - 1];
        }
        r
      else r
  }

  predicate IsInProgress(s: AgentStep) {
    s.status == InProgress
  }

  /** `steps.find(s => s.status === 'in_progress') || steps[1]`. */
  function CurrentStep(): (r: AgentStep)
    ensures r in Steps && IsInProgress(r)
    ensures exists i :: 0 <= i < |Steps| && Steps[i] == r && forall j :: 0 <= j < i ==> !IsInProgress(Steps[j])
  {
    assert IsInProgress(Steps[1]);
    Find(Steps, IsInProgress).GetOr(Steps[1])
  }

  /** Because `steps` is never modified, the failing step is always step 2. */
  lemma CurrentStepIsSearch()
    ensures CurrentStep() == Steps[1] && CurrentStep().id == "2"
  {
    assert Steps[0].status != InProgress;
    assert Find(Steps, IsInProgress) == Find(Steps[1..], IsInProgress);
  }

  /** The update sent from the `catch` block before the error is rethrown. */
  function FailureReport(): (r: AgentStep)
    ensures r.id == "2" && r.status == Failed && r.description == FailureDescription
    ensures r == Steps[1].(status := Failed, description := FailureDescription)
  {
    CurrentStepIsSearch();
    CurrentStep().(status := Failed, description := FailureDescription)
  }

  /** The `onStepUpdate` callback, as the sequence of updates it has received. */
  class Reporter {
    var trace: seq<AgentStep>

    constructor()
      ensures trace == []
    {
      trace := [];
    }

    method Report(step: AgentStep)
      modifies this
      ensures trace == old(trace) + [step]
    {
      trace := trace + [step];
    }
  }
}
