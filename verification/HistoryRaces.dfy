/** What can still happen to a complete job. */
module HistoryRaces {
  import opened Common
  import opened Store
  import opened HistoryImport
  import opened HistoryTheorems

  // ---------------------------------------------------------------- the exact condition

  /** The three ways to change a complete job: the last step of a cancel that checked the job
      before, a start by a client that looked the job up before, once no worker is alive, and the
      failure handler of its own worker, whose write of "complete" was stored but not read back. */
  predicate Disturbs(s: State, a: Action, j: nat) {
    match a
    case CancelMark(c, fault) => !fault.Before? && c in s.clients && s.clients[c] == Flagged(j)
    case StartThread(c, fault) =>
      && !fault.Before? && c in s.clients && s.clients[c] == LookedUp(j)
      && !(s.thread.Some? && s.thread.value in s.threads)
    case Work(t, fault) => !fault.Before? && t in s.threads && s.threads[t] == Thread(j, Failing)
    case _ => false
  }

  /** A worker of a complete job is past its loop. */
  predicate Closing(s: State) {
    forall t :: t in s.threads && s.threads[t].jobId < |s.jobs| && s.jobs[s.threads[t].jobId].status.Complete? ==>
      s.threads[t].pc.Failing? || s.threads[t].pc.Finishing? || s.threads[t].pc.Leaving?
  }

  lemma InsertStaysClosing(log: seq<Entry>, s: State, t: nat, fault: Fault)
    requires Closing(s) && s.threads.Keys == {t} && s.threads[t].jobId < |s.jobs| && s.threads[t].pc.Inserting?
    ensures Closing(WorkerStep(log, s, t, fault))
  {
    hide Answer, Answers, Insert, Inserts, Raises, Committed;
  }

  lemma PlainStaysClosing(log: seq<Entry>, s: State, t: nat, fault: Fault)
    requires Closing(s) && s.threads.Keys == {t} && s.threads[t].jobId < |s.jobs| && !s.threads[t].pc.Inserting?
    ensures Closing(WorkerStep(log, s, t, fault))
  {
    hide Answer, Answers, Inserted, ChunkCommitted, Raises;
  }

  lemma WorkerStaysClosing(log: seq<Entry>, s: State, t: nat, fault: Fault)
    requires Closing(s) && s.threads.Keys == {t} && s.threads[t].jobId < |s.jobs|
    ensures Closing(WorkerStep(log, s, t, fault))
  {
    hide *;
    if s.threads[t].pc.Inserting? {
      InsertStaysClosing(log, s, t, fault);
    } else {
      PlainStaysClosing(log, s, t, fault);
    }
  }

  lemma ClientStaysClosing(log: seq<Entry>, s: State, a: Action)
    requires Closing(s) && OneThread(s) && !a.Work?
    ensures Closing(Do(log, s, a))
  {
    hide WorkerStep;
  }

  lemma StepStaysClosing(log: seq<Entry>, s: State, a: Action)
    requires Closing(s) && OneThread(s)
    ensures Closing(Do(log, s, a))
  {
    hide Closing, WorkerStep;
    if !a.Work? {
      ClientStaysClosing(log, s, a);
    } else if a.threadId in s.threads {
      assert s.threads.Keys == {a.threadId};
      WorkerStaysClosing(log, s, a.threadId, a.fault);
    }
  }

  lemma {:induction false} RunStaysClosing(log: seq<Entry>, rows0: Rows, s: State, actions: seq<Action>)
    requires Inv(log, rows0, s) && Closing(s)
    ensures Closing(RunAll(log, s, actions))
    decreases |actions|
  {
    if actions != [] {
      assert OneThread(s);
      hide Inv, Closing, OneThread, Do;
      DoKeeps(log, rows0, s, actions[0]);
      StepStaysClosing(log, s, actions[0]);
      RunStaysClosing(log, rows0, Do(log, s, actions[0]), actions[1..]);
    }
  }

  lemma WorkerDisturbsIff(log: seq<Entry>, s: State, t: nat, fault: Fault, j: nat)
    requires Closing(s) && t in s.threads && s.threads[t].jobId < |s.jobs| && j < |s.jobs| && s.jobs[j].status.Complete?
    ensures var s' := WorkerStep(log, s, t, fault);
            j < |s'.jobs| && (s'.jobs[j] == s.jobs[j] <==> !Disturbs(s, Work(t, fault), j))
  {
    OwnJob(log, s, t, fault);
    if j == s.threads[t].jobId {
      assert s.threads[t].pc.Failing? || s.threads[t].pc.Finishing? || s.threads[t].pc.Leaving?;
      hide Closing, Answer, Answers, Insert, Inserts, Raises;
    } else {
      hide Closing, WorkerStep;
    }
  }

  lemma ClientDisturbsIff(log: seq<Entry>, s: State, a: Action, j: nat)
    requires !a.Work? && j < |s.jobs| && s.jobs[j].status.Complete?
    ensures j < |Do(log, s, a).jobs| && (Do(log, s, a).jobs[j] == s.jobs[j] <==> !Disturbs(s, a, j))
  {
    hide WorkerStep;
  }

  /** After any run, a step leaves a complete job as it is if and only if it does not disturb it,
      whatever fails in it and also while the job's own worker is still on its way out. */
  lemma CompleteIsLeftAlone(log: seq<Entry>, rows0: Rows, before: seq<Action>, a: Action, j: nat)
    requires j < |RunAll(log, Initial(rows0), before).jobs|
    requires RunAll(log, Initial(rows0), before).jobs[j].status.Complete?
    ensures var s := RunAll(log, Initial(rows0), before);
            && j < |Do(log, s, a).jobs|
            && (Do(log, s, a).jobs[j] == s.jobs[j] <==> !Disturbs(s, a, j))
  {
    InitialHolds(log, rows0);
    hide Inv, RunAll;
    RunStaysClosing(log, rows0, Initial(rows0), before);
    var s := RunAll(log, Initial(rows0), before);
    hide Closing, WorkerStep;
    if a.Work? {
      if a.threadId in s.threads && s.threads[a.threadId].jobId < |s.jobs| {
        WorkerDisturbsIff(log, s, a.threadId, a.fault, j);
      }
    } else {
      ClientDisturbsIff(log, s, a, j);
    }
  }

  // ---------------------------------------------------------------- all three happen

  const LATE_JOB := NewJob(0, 0, 300, 1)

  const DONE_JOB := LATE_JOB.(cursor := 1, chunks := 1)

  /** One worker at the only job, while client 1 is between two of its steps. */
  function LateState(rows: Rows, job: Job, pc: Pc, client: Client): State {
    State(rows, [job], map[0 := Thread(0, pc)], Some(0), 1, false, Some(0), map[1 := client])
  }

  /** The job is complete and its worker has ended. */
  function DoneState(rows: Rows, client: Client): State {
    LateState(rows, DONE_JOB.(status := Complete), Leaving, client).(threads := map[], active := None)
  }

  /** A job is created and started, and client 1 takes its first step. */
  lemma LateSetup(rows0: Rows, a: Action)
    requires a == CancelCheck(1, 0) || a == Lookup(1, 0)
    ensures RunAll([], Initial(rows0), [Create(0, 0, 300, 1, Fine), Lookup(0, 0)] + [StartThread(0, Fine), a])
            == LateState(rows0, LATE_JOB, Starting, if a.Lookup? then LookedUp(0) else Checked(0))
  {
    var s0, create := Initial(rows0), Create(0, 0, 300, 1, Fine);
    var s1 := Do([], s0, create);
    assert s1 == s0.(jobs := [LATE_JOB]);
    var s2 := Do([], s1, Lookup(0, 0));
    assert s2 == s1.(clients := map[0 := LookedUp(0)]);
    var s3 := Do([], s2, StartThread(0, Fine));
    assert s3.jobs == [LATE_JOB] && s3.clients == map[] && s3.threads == map[0 := Thread(0, Starting)];
    RunTwo([], s0, create, Lookup(0, 0));
    RunTwo([], s2, StartThread(0, Fine), a);
    hide RunAll;
    RunSplits([], s0, [create, Lookup(0, 0)], [StartThread(0, Fine), a]);
  }

  lemma LateStart(rows0: Rows, client: Client)
    ensures var job := LATE_JOB.(status := Running);
            Do([], LateState(rows0, LATE_JOB, Starting, client), Work(0, Fine))
            == LateState(rows0, job, Looping(job), client)
  {
    var s := Do([], LateState(rows0, LATE_JOB, Starting, client), Work(0, Fine));
    assert s.jobs == [LATE_JOB.(status := Running)];
  }

  lemma LateFetch(rows0: Rows, client: Client)
    ensures var job := LATE_JOB.(status := Running);
            Do([], LateState(rows0, job, Looping(job), client), Work(0, Fine))
            == LateState(rows0, job, Inserting(job, 0, [], Counts(0, 0, 0)), client)
  {
  }

  lemma LateCommit(rows0: Rows, client: Client)
    ensures var job, done := LATE_JOB.(status := Running), DONE_JOB.(status := Running);
            Do([], LateState(rows0, job, Inserting(job, 0, [], Counts(0, 0, 0)), client), Work(0, Fine))
            == LateState(rows0, done, Looping(done), client)
  {
    var job, done := LATE_JOB.(status := Running), DONE_JOB.(status := Running);
    var s := Do([], LateState(rows0, job, Inserting(job, 0, [], Counts(0, 0, 0)), client), Work(0, Fine));
    assert s.jobs == [done] && s.threads == map[0 := Thread(0, Looping(done))];
  }

  lemma LateEnd(rows0: Rows, client: Client)
    ensures var w, done := Work(0, Fine), DONE_JOB.(status := Running);
            Do([], Do([], Do([], LateState(rows0, done, Looping(done), client), w), w), w) == DoneState(rows0, client)
  {
    var w, done, complete := Work(0, Fine), DONE_JOB.(status := Running), DONE_JOB.(status := Complete);
    var s1 := Do([], LateState(rows0, done, Looping(done), client), w);
    assert s1 == LateState(rows0, complete, Finishing, client) by { assert s1.jobs == [complete]; }
    var s2 := Do([], s1, w);
    assert s2 == LateState(rows0, complete, Leaving, client).(active := None);
    assert Do([], s2, w).threads == map[];
  }

  /** The worker imports the only chunk of the job, while client 1 waits. */
  lemma LateChunk(rows0: Rows, a: Action) returns (actions: seq<Action>)
    requires a == CancelCheck(1, 0) || a == Lookup(1, 0)
    ensures var done := DONE_JOB.(status := Running);
            RunAll([], Initial(rows0), actions)
            == LateState(rows0, done, Looping(done), if a.Lookup? then LookedUp(0) else Checked(0))
  {
    var w, s0 := Work(0, Fine), Initial(rows0);
    var client := if a.Lookup? then LookedUp(0) else Checked(0);
    LateSetup(rows0, a);
    LateStart(rows0, client);
    LateFetch(rows0, client);
    LateCommit(rows0, client);
    hide *;
    var setup := [Create(0, 0, 300, 1, Fine), Lookup(0, 0)] + [StartThread(0, Fine), a];
    RunThree([], RunAll([], s0, setup), w, w, w);
    RunSplits([], s0, setup, [w, w, w]);
    actions := setup + [w, w, w];
  }

  /** The worker completes the job and ends, while client 1 waits. */
  lemma LateRun(rows0: Rows, a: Action) returns (actions: seq<Action>)
    requires a == CancelCheck(1, 0) || a == Lookup(1, 0)
    ensures RunAll([], Initial(rows0), actions) == DoneState(rows0, if a.Lookup? then LookedUp(0) else Checked(0))
  {
    var w, s0 := Work(0, Fine), Initial(rows0);
    var chunk := LateChunk(rows0, a);
    LateEnd(rows0, if a.Lookup? then LookedUp(0) else Checked(0));
    hide *;
    RunThree([], RunAll([], s0, chunk), w, w, w);
    RunSplits([], s0, chunk, [w, w, w]);
    actions := chunk + [w, w, w];
  }

  lemma LateMark(rows0: Rows)
    ensures var s := DoneState(rows0, Checked(0));
            var s' := Do([], Do([], s, CancelSet(1)), CancelMark(1, Fine));
            s'.jobs == [DONE_JOB.(status := Cancelling)] && s'.threads == map[]
  {
  }

  lemma LateQueue(rows0: Rows)
    ensures var s' := Do([], DoneState(rows0, LookedUp(0)), StartThread(1, Fine));
            s'.jobs == [DONE_JOB.(status := Queued)] && s'.threads == map[1 := Thread(0, Starting)]
  {
  }

  /** The race is real: a cancel that checked before the worker finished marks a complete job
      as cancelling after it, with no worker left to take notice. */
  lemma LateCancelMarksCompleteJob(rows0: Rows)
    ensures exists actions: seq<Action> ::
              var s := RunAll([], Initial(rows0), actions);
              && s.jobs == [DONE_JOB.(status := Cancelling)] && s.threads == map[]
              && s.jobs[0].cursor == s.jobs[0].end + 1
  {
    var actions := LateRun(rows0, CancelCheck(1, 0));
    LateMark(rows0);
    assert DONE_JOB.cursor == DONE_JOB.end + 1;
    hide *;
    RunSplits([], Initial(rows0), actions, [CancelSet(1), CancelMark(1, Fine)]);
    RunTwo([], DoneState(rows0, Checked(0)), CancelSet(1), CancelMark(1, Fine));
    var s := RunAll([], Initial(rows0), actions + [CancelSet(1), CancelMark(1, Fine)]);
    assert s.jobs == [DONE_JOB.(status := Cancelling)];
  }

  /** And so is the second: a resume that looked the job up before the worker finished starts a
      new worker on the complete job. */
  lemma LateStartRequeuesCompleteJob(rows0: Rows)
    ensures exists actions: seq<Action> ::
              var s := RunAll([], Initial(rows0), actions);
              && s.jobs == [DONE_JOB.(status := Queued)] && s.threads == map[1 := Thread(0, Starting)]
              && s.jobs[0].cursor == s.jobs[0].end + 1
  {
    var actions := LateRun(rows0, Lookup(1, 0));
    LateQueue(rows0);
    assert DONE_JOB.cursor == DONE_JOB.end + 1;
    hide *;
    RunSplits([], Initial(rows0), actions, [StartThread(1, Fine)]);
    RunOneStep([], DoneState(rows0, LookedUp(0)), StartThread(1, Fine));
    assert RunAll([], Initial(rows0), actions + [StartThread(1, Fine)]).jobs == [DONE_JOB.(status := Queued)];
  }

  lemma LostReadback(rows0: Rows, client: Client)
    ensures var done := DONE_JOB.(status := Running);
            var s1 := Do([], LateState(rows0, done, Looping(done), client), Work(0, After));
            s1.jobs == [DONE_JOB.(status := Complete)]
            && Do([], s1, Work(0, Fine)).jobs == [DONE_JOB.(status := Paused)]
  {
    var done := DONE_JOB.(status := Running);
    var s1 := Do([], LateState(rows0, done, Looping(done), client), Work(0, After));
    assert s1 == LateState(rows0, DONE_JOB.(status := Complete), Failing, client) by {
      assert s1.jobs == [DONE_JOB.(status := Complete)];
    }
  }

  /** The third needs no client at all: the store takes "complete" and fails before it is read
      back, and the handler of that failure writes "paused" over it. */
  lemma LostReadbackPausesCompleteJob(rows0: Rows)
    ensures exists actions: seq<Action> ::
              && RunAll([], Initial(rows0), actions).jobs == [DONE_JOB.(status := Complete)]
              && RunAll([], Initial(rows0), actions + [Work(0, Fine)]).jobs == [DONE_JOB.(status := Paused)]
  {
    var s0 := Initial(rows0);
    var chunk := LateChunk(rows0, Lookup(1, 0));
    LostReadback(rows0, LookedUp(0));
    hide *;
    var actions := chunk + [Work(0, After)];
    RunSplits([], s0, chunk, [Work(0, After)]);
    RunOneStep([], RunAll([], s0, chunk), Work(0, After));
    RunSplits([], s0, actions, [Work(0, Fine)]);
    RunOneStep([], RunAll([], s0, actions), Work(0, Fine));
    assert RunAll([], s0, actions).jobs == [DONE_JOB.(status := Complete)];
  }

  // ---------------------------------------------------------------- until someone resumes it

  lemma CancellingStep(log: seq<Entry>, s: State, a: Action, j: nat)
    requires s.threads == map[] && j < |s.jobs| && s.jobs[j].status.Cancelling? && !a.StartThread?
    ensures var s' := Do(log, s, a); s'.threads == map[] && j < |s'.jobs| && s'.jobs[j] == s.jobs[j]
  {
    hide WorkerStep;
  }

  /** A job that is marked as cancelling while no worker is alive stays so through every run in
      which no worker is started. */
  lemma {:induction false} CancellingStays(log: seq<Entry>, s: State, actions: seq<Action>, j: nat)
    requires s.threads == map[] && j < |s.jobs| && s.jobs[j].status.Cancelling?
    requires forall i :: 0 <= i < |actions| ==> !actions[i].StartThread?
    ensures var s' := RunAll(log, s, actions); s'.threads == map[] && j < |s'.jobs| && s'.jobs[j] == s.jobs[j]
    decreases |actions|
  {
    if actions != [] {
      assert !actions[0].StartThread?;
      CancellingStep(log, s, actions[0], j);
      hide Do;
      CancellingStays(log, Do(log, s, actions[0]), actions[1..], j);
    }
  }

  /** A resume repairs it: its worker finds the range done and completes the job again. */
  lemma ResumeCompletesAgain(log: seq<Entry>, s: State, c: nat, j: nat)
    requires s.threads == map[] && j < |s.jobs| && !s.jobs[j].status.Complete?
    requires s.jobs[j].cursor > s.jobs[j].end
    ensures var t := s.nextThread;
            var s' := RunAll(log, s, [Lookup(c, j), StartThread(c, Fine), Work(t, Fine), Work(t, Fine)]);
            j < |s'.jobs| && s'.jobs[j] == s.jobs[j].(status := Complete)
  {
    var t, job := s.nextThread, s.jobs[j];
    var s1 := Do(log, s, Lookup(c, j));
    assert s1 == s.(clients := s.clients[c := LookedUp(j)]);
    var s2 := Do(log, s1, StartThread(c, Fine));
    assert s2.threads == map[t := Thread(j, Starting)] && s2.jobs == s.jobs[j := job.(status := Queued)];
    var s3 := Do(log, s2, Work(t, Fine));
    assert s3.threads == map[t := Thread(j, Looping(job.(status := Running)))];
    assert s3.jobs[j] == job.(status := Running);
    var s4 := Do(log, s3, Work(t, Fine));
    assert s4.jobs[j] == job.(status := Complete);
    RunTwo(log, s, Lookup(c, j), StartThread(c, Fine));
    RunTwo(log, s2, Work(t, Fine), Work(t, Fine));
    hide Do;
    RunSplits(log, s, [Lookup(c, j), StartThread(c, Fine)], [Work(t, Fine), Work(t, Fine)]);
    assert [Lookup(c, j), StartThread(c, Fine)] + [Work(t, Fine), Work(t, Fine)]
           == [Lookup(c, j), StartThread(c, Fine), Work(t, Fine), Work(t, Fine)];
  }
}
