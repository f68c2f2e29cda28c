/**
 * The agent-step board of `handleJobSearch` (src/App.tsx): it is reset
 * to `[]` when a search starts, and every reported step is merged into it
 * by id.
 */
module AppSteps {
  import opened Seqs
  import opened Agent

  function Ids(board: seq<AgentStep>): (r: seq<string>)
    ensures |r| == |board| && forall i :: 0 <= i < |board| ==> r[i] == board[i].id
  {
    seq(|board|, i requires 0 <= i < |board| => board[i].id)
  }

  /**
   * The state updater passed to `setAgentSteps`: when some entry has the
   * step's id, every entry with that id is replaced by the step; otherwise
   * the step is appended.
   */
  function Upsert(prev: seq<AgentStep>, step: AgentStep): (r: seq<AgentStep>)
    ensures step.id !in Ids(prev) ==> r == prev + [step]
    ensures step.id in Ids(prev) ==>
              && |r| == |prev|
              && (forall i :: 0 <= i < |prev| && prev[i].id == step.id ==> r[i] == step)
              && (forall i :: 0 <= i < |prev| && prev[i].id != step.id ==> r[i] == prev[i])
  {
    if step.id in Ids(prev) then
      seq(|prev|, i requires 0 <= i < |prev| => if prev[i].id == step.id then step else prev[i])
    else
      prev + [step]
  }

  /** Reporting a step whose id only entry `k` has replaces that entry in place. */
  lemma UpsertReplacesEntry(prev: seq<AgentStep>, k: nat, step: AgentStep)
    requires k < |prev| && prev[k].id == step.id
    requires forall i :: 0 <= i < |prev| && i != k ==> prev[i].id != step.id
    ensures Upsert(prev, step) == prev[k := step]
  {
    assert Ids(prev)[k] == step.id;
  }

  /** The ids keep their positions; a new id is added at the end. */
  lemma UpsertIds(prev: seq<AgentStep>, step: AgentStep)
    ensures Ids(Upsert(prev, step)) == if step.id in Ids(prev) then Ids(prev) else Ids(prev) + [step.id]
  {
  }

  /** After the update the board holds the step, and it is the only entry with its id that survives. */
  lemma UpsertStoresStep(prev: seq<AgentStep>, step: AgentStep)
    ensures step in Upsert(prev, step)
    ensures forall x :: x in Upsert(prev, step) && x.id == step.id ==> x == step
    ensures forall x :: x in Upsert(prev, step) && x.id != step.id ==> x in prev
  {
    var r := Upsert(prev, step);
    if step.id in Ids(prev) {
      var k :| 0 <= k < |prev| && Ids(prev)[k] == step.id;
      assert r[k] == step;
    } else {
      assert r[|prev|] == step;
    }
  }

  /** The set of ids grows by exactly the step's id. */
  lemma UpsertIdSet(prev: seq<AgentStep>, step: AgentStep)
    ensures (set x | x in Ids(Upsert(prev, step))) == (set x | x in Ids(prev)) + {step.id}
  {
    UpsertIds(prev, step);
  }

  /** Ids that are pairwise different stay so. */
  lemma UpsertKeepsIdsDistinct(prev: seq<AgentStep>, step: AgentStep)
    requires Distinct(Ids(prev))
    ensures Distinct(Ids(Upsert(prev, step)))
  {
    UpsertIds(prev, step);
  }

  /** Reporting the same step twice has the effect of reporting it once. */
  lemma UpsertIdempotent(prev: seq<AgentStep>, step: AgentStep)
    ensures Upsert(Upsert(prev, step), step) == Upsert(prev, step)
  {
    UpsertIds(prev, step);
  }

  /** Of two reports for the same id, the later one wins outright. */
  lemma UpsertLastWins(prev: seq<AgentStep>, s1: AgentStep, s2: AgentStep)
    requires s1.id == s2.id
    ensures Upsert(Upsert(prev, s1), s2) == Upsert(prev, s2)
  {
    UpsertIds(prev, s1);
  }

  /** The board after the reports `trace`, starting from `board`. */
  function Replay(board: seq<AgentStep>, trace: seq<AgentStep>): (r: seq<AgentStep>)
    ensures |board| <= |r| <= |board| + |trace|
    decreases |trace|
  {
    if trace == [] then board else Replay(Upsert(board, trace[0]), trace[1..])
  }

  /** `seen` followed by the ids of `ids` not seen before, each at its first occurrence. */
  function AppendUnseen(seen: seq<string>, ids: seq<string>): (r: seq<string>)
    ensures forall x :: x in r <==> x in seen || x in ids
    decreases |ids|
  {
    if ids == [] then seen
    else AppendUnseen(if ids[0] in seen then seen else seen + [ids[0]], ids[1..])
  }

  /** The board's ids are the ids of the trace in the order they were first reported. */
  lemma {:induction false} ReplayIds(board: seq<AgentStep>, trace: seq<AgentStep>)
    ensures Ids(Replay(board, trace)) == AppendUnseen(Ids(board), Ids(trace))
    decreases |trace|
  {
    if trace != [] {
      UpsertIds(board, trace[0]);
      ReplayIds(Upsert(board, trace[0]), trace[1..]);
      assert Ids(trace)[1..] == Ids(trace[1..]);
    }
  }

  /** Replaying from the reset never yields two entries with one id. */
  lemma {:induction false} ReplayKeepsIdsDistinct(board: seq<AgentStep>, trace: seq<AgentStep>)
    requires Distinct(Ids(board))
    ensures Distinct(Ids(Replay(board, trace)))
    decreases |trace|
  {
    if trace != [] {
      UpsertKeepsIdsDistinct(board, trace[0]);
      ReplayKeepsIdsDistinct(Upsert(board, trace[0]), trace[1..]);
    }
  }

  lemma {:induction false} ReplayAppend(board: seq<AgentStep>, t1: seq<AgentStep>, t2: seq<AgentStep>)
    ensures Replay(board, t1 + t2) == Replay(Replay(board, t1), t2)
    decreases |t1|
  {
    if t1 != [] {
      assert (t1 + t2)[0] == t1[0];
      assert (t1 + t2)[1..] == t1[1..] + t2;
      ReplayAppend(Upsert(board, t1[0]), t1[1..], t2);
    } else {
      assert t1 + t2 == t2;
    }
  }

  lemma ReplayOne(board: seq<AgentStep>, step: AgentStep)
    ensures Replay(board, [step]) == Upsert(board, step)
  {
    assert [step][1..] == [];
  }

  /** Replaying a step whose id is new appends it. */
  lemma ReplayNew(board: seq<AgentStep>, x: AgentStep)
    requires x.id !in Ids(board)
    ensures Replay(board, [x]) == board + [x]
  {
    ReplayOne(board, x);
  }

  /** Replaying a step whose id only entry `k` has replaces that entry. */
  lemma ReplayAt(board: seq<AgentStep>, k: nat, x: AgentStep)
    requires k < |board| && board[k].id == x.id
    requires forall i :: 0 <= i < |board| && i != k ==> board[i].id != x.id
    ensures Replay(board, [x]) == board[k := x]
  {
    ReplayOne(board, x);
    UpsertReplacesEntry(board, k, x);
  }

  /** The first four updates of a search, for any three steps with distinct ids. */
  lemma ReplayOpening(s1: AgentStep, s2: AgentStep, s3: AgentStep)
    requires s1.id != s2.id && s1.id != s3.id && s2.id != s3.id
    ensures Replay([], [s1, s2, WithStatus(s2, Completed), WithStatus(s3, InProgress)])
              == [s1, WithStatus(s2, Completed), WithStatus(s3, InProgress)]
  {
    var t := [s1, s2, WithStatus(s2, Completed), WithStatus(s3, InProgress)];
    var b1 := [s1];
    ReplayNew([], s1);
    assert [] + [s1] == b1;
    var b2 := [s1, s2];
    ReplayNew(b1, s2);
    var b3 := [s1, WithStatus(s2, Completed)];
    ReplayAt(b2, 1, t[2]);
    assert b2[1 := t[2]] == b3;
    var b4 := b3 + [t[3]];
    ReplayNew(b3, t[3]);
    ReplayFromSingles([], t, [b1, b2, b3, b4]);
  }

  /** Replaying two reports is two updates. */
  lemma ReplayPair(board: seq<AgentStep>, x: AgentStep, y: AgentStep)
    ensures Replay(board, [x, y]) == Upsert(Upsert(board, x), y)
  {
    assert [x, y][1..] == [y];
    ReplayOne(Upsert(board, x), y);
  }

  /** Completing step 3 and starting step 4. */
  lemma UpsertThirdDone(b: seq<AgentStep>, s3: AgentStep, s4: AgentStep)
    requires |b| == 3 && b[2].id == s3.id && b[0].id != s3.id && b[1].id != s3.id
    requires s4.id != b[0].id && s4.id != b[1].id && s4.id != s3.id
    ensures Upsert(Upsert(b, WithStatus(s3, Completed)), WithStatus(s4, InProgress))
              == [b[0], b[1], WithStatus(s3, Completed), WithStatus(s4, InProgress)]
  {
    var x, y := WithStatus(s3, Completed), WithStatus(s4, InProgress);
    var b1 := [b[0], b[1], x];
    assert b[2 := x] == b1;
    UpsertReplacesEntry(b, 2, x);
    assert Ids(b1) == [b[0].id, b[1].id, s3.id];
    assert y.id !in Ids(b1);
  }

  /** Completing step 4 and reporting step 5 completed. */
  lemma UpsertFourthDone(b: seq<AgentStep>, s4: AgentStep, s5: AgentStep)
    requires |b| == 4 && b[3].id == s4.id && b[0].id != s4.id && b[1].id != s4.id && b[2].id != s4.id
    requires s5.id != b[0].id && s5.id != b[1].id && s5.id != b[2].id && s5.id != s4.id
    ensures Upsert(Upsert(b, WithStatus(s4, Completed)), WithStatus(s5, Completed))
              == [b[0], b[1], b[2], WithStatus(s4, Completed), WithStatus(s5, Completed)]
  {
    var x, y := WithStatus(s4, Completed), WithStatus(s5, Completed);
    var b1 := [b[0], b[1], b[2], x];
    assert b[3 := x] == b1;
    UpsertReplacesEntry(b, 3, x);
    assert Ids(b1) == [b[0].id, b[1].id, b[2].id, s4.id];
    assert y.id !in Ids(b1);
  }

  /** The last four updates of a search, completing step 3 and adding steps 4 and 5. */
  lemma ReplayClosing(b: seq<AgentStep>, s3: AgentStep, s4: AgentStep, s5: AgentStep)
    requires |b| == 3 && b[2].id == s3.id && b[0].id != s3.id && b[1].id != s3.id
    requires s4.id != b[0].id && s4.id != b[1].id && s4.id != s3.id
    requires s5.id != b[0].id && s5.id != b[1].id && s5.id != s3.id && s5.id != s4.id
    ensures Replay(b, [WithStatus(s3, Completed), WithStatus(s4, InProgress), WithStatus(s4, Completed), WithStatus(s5, Completed)])
              == [b[0], b[1], WithStatus(s3, Completed), WithStatus(s4, Completed), WithStatus(s5, Completed)]
  {
    var t1 := [WithStatus(s3, Completed), WithStatus(s4, InProgress)];
    var t2 := [WithStatus(s4, Completed), WithStatus(s5, Completed)];
    ReplayPair(b, t1[0], t1[1]);
    UpsertThirdDone(b, s3, s4);
    var mid := [b[0], b[1], WithStatus(s3, Completed), WithStatus(s4, InProgress)];
    ReplayPair(mid, t2[0], t2[1]);
    UpsertFourthDone(mid, s4, s5);
    ReplayAppend(b, t1, t2);
    assert t1 + t2 == [WithStatus(s3, Completed), WithStatus(s4, InProgress), WithStatus(s4, Completed), WithStatus(s5, Completed)];
  }

  /** The board after the first four reports of a successful search. */
  lemma SuccessBoardHalfway(t: seq<AgentStep>)
    requires t == SuccessTrace()
    ensures Replay([], t[..4]) == [Steps[0], WithStatus(Steps[1], Completed), WithStatus(Steps[2], InProgress)]
  {
    assert t[..4] == [Steps[0], Steps[1], WithStatus(Steps[1], Completed), WithStatus(Steps[2], InProgress)];
    ReplayOpening(Steps[0], Steps[1], Steps[2]);
  }

  /** The board a successful search leaves: steps 1 to 5 in order, all completed. */
  lemma SuccessBoard(t: seq<AgentStep>)
    requires t == SuccessTrace()
    ensures var b := Replay([], t);
      && b == [WithStatus(Steps[0], Completed), WithStatus(Steps[1], Completed), WithStatus(Steps[2], Completed),
               WithStatus(Steps[3], Completed), WithStatus(Steps[4], Completed)]
      && Ids(b) == ["1", "2", "3", "4", "5"]
  {
    SuccessBoardHalfway(t);
    assert t == t[..4] + t[4..];
    ReplayAppend([], t[..4], t[4..]);
    var half := [Steps[0], WithStatus(Steps[1], Completed), WithStatus(Steps[2], InProgress)];
    assert t[4..] == [WithStatus(Steps[2], Completed), WithStatus(Steps[3], InProgress),
                      WithStatus(Steps[3], Completed), WithStatus(Steps[4], Completed)];
    ReplayClosing(half, Steps[2], Steps[3], Steps[4]);
    assert WithStatus(Steps[0], Completed) == Steps[0];
  }

  /** Replaying a trace step by step through the boards `bs`. */
  lemma {:induction false} ReplayFromSingles(board: seq<AgentStep>, t: seq<AgentStep>, bs: seq<seq<AgentStep>>)
    requires |bs| == |t| > 0
    requires Replay(board, [t[0]]) == bs[0]
    requires forall i :: 0 < i < |t| ==> Replay(bs[i - 1], [t[i]]) == bs[i]
    ensures Replay(board, t) == bs[|t| - 1]
    decreases |t|
  {
    ReplayOne(board, t[0]);
    if |t| > 1 {
      ReplayFromSingles(bs[0], t[1..], bs[1..]);
    } else {
      assert t == [t[0]];
    }
  }

  /** Two steps with distinct ids, then a report for the second one. */
  lemma ReplayStartThenFail(s1: AgentStep, s2: AgentStep, f: AgentStep)
    requires s1.id != s2.id && f.id == s2.id
    ensures Replay([], [s1, s2, f]) == [s1, f]
  {
    var b1 := [s1];
    ReplayNew([], s1);
    assert [] + [s1] == b1;
    var b2 := [s1, s2];
    ReplayNew(b1, s2);
    ReplayAt(b2, 1, f);
    assert b2[1 := f] == [s1, f];
    ReplayFromSingles([], [s1, s2, f], [b1, b2, [s1, f]]);
  }

  /** A failed request leaves step 1 completed and step 2 failed. */
  lemma FetchFailureBoard(t: seq<AgentStep>)
    requires t == SearchStarted() + [FailureReport()]
    ensures Replay([], t) == [Steps[0], FailureReport()]
  {
    assert t == [Steps[0], Steps[1], FailureReport()];
    ReplayStartThenFail(Steps[0], Steps[1], FailureReport());
  }

  /** A report for the second entry of a five-entry board with distinct ids replaces that entry. */
  lemma ReplaySecondOfFive(b0: AgentStep, b1: AgentStep, b2: AgentStep, b3: AgentStep, b4: AgentStep, f: AgentStep)
    requires f.id == b1.id && b0.id != f.id && b2.id != f.id && b3.id != f.id && b4.id != f.id
    ensures Replay([b0, b1, b2, b3, b4], [f]) == [b0, f, b2, b3, b4]
  {
    var b := [b0, b1, b2, b3, b4];
    ReplayAt(b, 1, f);
    assert b[1 := f] == [b0, f, b2, b3, b4];
  }

  /** A failure after step 5 (a listing without score or description) marks step 2 failed and keeps 3 to 5 completed. */
  lemma LateFailureBoard(t: seq<AgentStep>)
    requires t == SuccessTrace() + [FailureReport()]
    ensures Replay([], t)
              == [Steps[0], FailureReport(), WithStatus(Steps[2], Completed),
                  WithStatus(Steps[3], Completed), WithStatus(Steps[4], Completed)]
  {
    var success, f := SuccessTrace(), FailureReport();
    SuccessBoard(success);
    ReplayAppend([], success, [f]);
    var c0 := WithStatus(Steps[0], Completed);
    var c1 := WithStatus(Steps[1], Completed);
    var c2 := WithStatus(Steps[2], Completed);
    var c3 := WithStatus(Steps[3], Completed);
    var c4 := WithStatus(Steps[4], Completed);
    assert Replay([], success) == [c0, c1, c2, c3, c4];
    ReplaySecondOfFive(c0, c1, c2, c3, c4, f);
    assert c0 == Steps[0];
  }
}
