/** When an imported job can complete, whatever has happened to it before. */
module HistoryCompletion {
  import opened Common
  import opened Store
  import opened HistoryImport
  import opened HistoryTheorems

  /** What the device must allow: no record of the range raises in the store, and every chunk is
      inside the device's range and record limit. */
  predicate Importable(log: seq<Entry>, job: Job)
    requires job.start <= job.end && job.chunkSeconds > 0
  {
    && (forall i :: 0 <= i < |log| && InRange(job, log[i].epoch) ==> !Raises(log[i].record))
    && (forall i :: 0 <= i < ChunkCount(job) ==> ChunkFits(log, job, i))
  }

  /** A job only ever completes if its range is importable; one record whose data is a plain
      non-zero number keeps it from completing for good. */
  lemma CompleteNeedsImportable(log: seq<Entry>, rows0: Rows, actions: seq<Action>, j: nat)
    requires j < |RunAll(log, Initial(rows0), actions).jobs|
    requires RunAll(log, Initial(rows0), actions).jobs[j].status.Complete?
    ensures var job := RunAll(log, Initial(rows0), actions).jobs[j];
            job.start <= job.end && job.chunkSeconds > 0 && Importable(log, job)
  {
    ReachableHolds(log, rows0, actions);
    var s := RunAll(log, Initial(rows0), actions);
    assert JobOk(s.jobs[j]) && Covered(log, s.rows, s.jobs[j]);
    hide Inv, RunAll, Raises, Known, ChunkFits, ChunkCount;
    TiledToTheEnd(s.jobs[j]);
  }

  /** A worker between chunks, not cancelled. */
  predicate Ready(s: State, t: nat) {
    t in s.threads && s.threads[t].jobId < |s.jobs| && s.threads[t].pc.Looping? && !s.cancel
  }

  /** A worker with a fetched chunk, of which no record raises. */
  predicate Fetched(s: State, t: nat, j: nat, job: Job) {
    && t in s.threads && s.threads[t].jobId == j < |s.jobs| && !s.cancel && s.jobs[j] == job
    && s.threads[t].pc.Inserting? && SameProgress(s.threads[t].pc.job, job)
    && s.threads[t].pc.hi == ChunkEnd(job)
    && s.threads[t].pc.counts.received <= |s.threads[t].pc.answer|
    && forall i :: 0 <= i < |s.threads[t].pc.answer| ==> !Raises(s.threads[t].pc.answer[i])
  }

  /** Inserting the rest of a chunk and committing it moves the cursor behind the chunk. */
  lemma {:induction false} ChunkCompletes(log: seq<Entry>, s: State, t: nat, j: nat, job: Job)
    returns (actions: seq<Action>)
    requires Fetched(s, t, j, job)
    ensures var s' := RunAll(log, s, actions);
            && Ready(s', t) && s'.threads[t].jobId == j
            && s'.jobs[j].start == job.start && s'.jobs[j].end == job.end && s'.jobs[j].maxRecords == job.maxRecords
            && s'.jobs[j].chunkSeconds == job.chunkSeconds && s'.jobs[j].cursor == ChunkEnd(job) + 1
    decreases |s.threads[t].pc.answer| - s.threads[t].pc.counts.received
  {
    var a := Work(t, Fine);
    var pc, next := s.threads[t].pc, Do(log, s, a);
    RunOneStep(log, s, a);
    if pc.counts.received == |pc.answer| {
      actions := [a];
    } else {
      assert !Raises(pc.answer[pc.counts.received]);
      hide Raises, Insert, Inserts, RunAll;
      assert Fetched(next, t, j, job);
      var rest := ChunkCompletes(log, next, t, j, job);
      actions := [a] + rest;
      RunSplits(log, s, [a], rest);
    }
  }

  lemma ImportableSame(log: seq<Entry>, a: Job, b: Job)
    requires a.start == b.start && a.end == b.end && a.maxRecords == b.maxRecords && a.chunkSeconds == b.chunkSeconds
    requires a.start <= a.end && a.chunkSeconds > 0 && Importable(log, a)
    ensures Importable(log, b)
  {
    FitsSame(log, a, b);
    hide Raises, ChunkFits;
  }

  /** An unfinished job stands at the start of a chunk of its range. */
  lemma AtItsChunk(job: Job)
    requires Tiled(job) && job.cursor <= job.end
    ensures job.start + job.chunks * job.chunkSeconds == job.cursor && job.chunks < ChunkCount(job)
  {
    TiledToTheEnd(job);
    hide ChunkCount;
  }

  /** The next chunk of an importable job can be fetched, and none of its records raises. */
  lemma NextChunkFits(log: seq<Entry>, job: Job)
    requires Tiled(job) && Importable(log, job) && job.cursor <= job.end
    ensures Answers(log, job)
    ensures forall m :: 0 <= m < |Answer(log, job.cursor, ChunkEnd(job))| ==>
              !Raises(Answer(log, job.cursor, ChunkEnd(job))[m])
  {
    AtItsChunk(job);
    assert job.start <= job.cursor && ChunkEnd(job) <= job.end;
    hide Raises, Answer, ChunkCount, Tiled;
    assert ChunkFits(log, job, job.chunks);
    forall m | 0 <= m < |Answer(log, job.cursor, ChunkEnd(job))|
      ensures !Raises(Answer(log, job.cursor, ChunkEnd(job))[m])
    {
      var i := AnswerLogged(log, job.cursor, ChunkEnd(job), m);
    }
  }

  /** A worker at the end of its range completes the job. */
  lemma LastStep(log: seq<Entry>, s: State, t: nat)
    requires Ready(s, t) && s.threads[t].pc.job.cursor > s.threads[t].pc.job.end
    ensures var j, s' := s.threads[t].jobId, Do(log, s, Work(t, Fine));
            j < |s'.jobs| && s'.jobs[j].status.Complete?
  {
  }

  /** Otherwise it fetches the next chunk. */
  lemma FetchStep(log: seq<Entry>, s: State, t: nat, j: nat)
    requires Ready(s, t) && s.threads[t].jobId == j && ThreadOk(log, s, s.threads[t])
    requires Tiled(s.jobs[j]) && Importable(log, s.jobs[j]) && s.jobs[j].cursor <= s.jobs[j].end
    ensures Fetched(Do(log, s, Work(t, Fine)), t, j, s.jobs[j])
  {
    NextChunkFits(log, s.jobs[j]);
    hide Raises, Answer, Tiled, Importable;
  }

  /** From a worker between chunks of an importable job, steps without faults complete it: one
      fetch, one insert per record and one commit for every chunk that is left. */
  lemma {:induction false} ReadyCompletes(log: seq<Entry>, rows0: Rows, s: State, t: nat, j: nat)
    returns (actions: seq<Action>)
    requires Inv(log, rows0, s) && Ready(s, t) && s.threads[t].jobId == j
    requires s.jobs[j].start <= s.jobs[j].end && s.jobs[j].chunkSeconds > 0 && Importable(log, s.jobs[j])
    ensures j < |RunAll(log, s, actions).jobs| && RunAll(log, s, actions).jobs[j].status.Complete?
    decreases s.jobs[j].end - s.jobs[j].cursor + 1
  {
    var a, job := Work(t, Fine), s.jobs[j];
    var next := Do(log, s, a);
    assert ThreadOk(log, s, s.threads[t]) && JobOk(job) && SameProgress(s.threads[t].pc.job, job);
    hide *;
    RunOneStep(log, s, a);
    if job.cursor > job.end {
      LastStep(log, s, t);
      actions := [a];
    } else {
      FetchStep(log, s, t, j);
      DoKeeps(log, rows0, s, a);
      CommitTiles(job);
      var chunk := ChunkCompletes(log, next, t, j, job);
      RunKeeps(log, rows0, next, chunk);
      var after := RunAll(log, next, chunk);
      ImportableSame(log, job, after.jobs[j]);
      var rest := ReadyCompletes(log, rows0, after, t, j);
      actions := [a] + chunk + rest;
      RunSplits(log, s, [a] + chunk, rest);
      RunSplits(log, s, [a], chunk);
    }
  }

  // ---------------------------------------------------------------- from any state

  predicate CompletesWith(log: seq<Entry>, s: State, after: seq<Action>, j: nat) {
    j < |RunAll(log, s, after).jobs| && RunAll(log, s, after).jobs[j].status.Complete?
  }

  /** How many failing steps a worker is away from its end. */
  function StepsLeft(pc: Pc): nat {
    match pc
    case Starting => 1
    case Leaving => 1
    case Finishing => 2
    case Failing => 3
    case _ => 4
  }

  lemma FailingStep(log: seq<Entry>, s: State, t: nat)
    requires s.threads.Keys == {t} && s.threads[t].jobId < |s.jobs|
    ensures var s' := Do(log, s, Work(t, Before));
            && s'.jobs == s.jobs
            && (s'.threads == map[] || (s'.threads.Keys == {t} && s'.threads[t].jobId == s.threads[t].jobId
                                        && StepsLeft(s'.threads[t].pc) < StepsLeft(s.threads[t].pc)))
            && (StepsLeft(s.threads[t].pc) == 1 ==> s'.threads == map[])
  {
    hide Answer, Answers, Inserted, ChunkCommitted, Raises, SetStatus;
  }

  /** Wherever the only worker is, four failures at most end it, and they touch no job. */
  lemma {:induction false} WorkerEnds(log: seq<Entry>, s: State, t: nat) returns (actions: seq<Action>)
    requires s.threads.Keys == {t} && s.threads[t].jobId < |s.jobs|
    ensures RunAll(log, s, actions).threads == map[] && RunAll(log, s, actions).jobs == s.jobs
    decreases StepsLeft(s.threads[t].pc)
  {
    var a := Work(t, Before);
    FailingStep(log, s, t);
    RunOneStep(log, s, a);
    hide RunAll, Do;
    actions := [a];
    if Do(log, s, a).threads != map[] {
      var rest := WorkerEnds(log, Do(log, s, a), t);
      actions := [a] + rest;
      RunSplits(log, s, [a], rest);
    }
  }

  /** From any state of any run, the live worker can be made to end without touching a job. */
  lemma AllWorkersEnd(log: seq<Entry>, rows0: Rows, s: State) returns (actions: seq<Action>)
    requires Inv(log, rows0, s)
    ensures RunAll(log, s, actions).threads == map[] && RunAll(log, s, actions).jobs == s.jobs
  {
    assert OneThread(s);
    hide Inv;
    if s.threads == map[] {
      actions := [];
    } else {
      var t :| t in s.threads;
      assert s.threads.Keys == {t};
      hide RunAll;
      actions := WorkerEnds(log, s, t);
    }
  }

  /** With no worker alive, an incomplete job can be resumed: its worker comes between chunks,
      with nothing cancelled. */
  lemma ResumedIsReady(log: seq<Entry>, s: State, j: nat) returns (t: nat)
    requires s.threads == map[] && j < |s.jobs| && !s.jobs[j].status.Complete?
    ensures var s' := RunAll(log, s, [Lookup(0, j), StartThread(0, Fine), Work(t, Fine)]);
            && Ready(s', t) && s'.threads[t].jobId == j && SameProgress(s'.jobs[j], s.jobs[j])
  {
    t := s.nextThread;
    RunThree(log, s, Lookup(0, j), StartThread(0, Fine), Work(t, Fine));
    var s1 := Do(log, s, Lookup(0, j));
    var s2 := Do(log, s1, StartThread(0, Fine));
    assert s1 == s.(clients := s.clients[0 := LookedUp(j)]);
    assert s2.threads == map[t := Thread(j, Starting)] && !s2.cancel;
    assert s2.jobs == s.jobs[j := s.jobs[j].(status := Queued)];
    hide RunAll;
  }

  /** From any state of any run, whether its job is queued, running, paused, cancelled or finished
      and wherever a worker is, an importable job can be brought to completion. */
  lemma ImportableCompletes(log: seq<Entry>, rows0: Rows, s: State, j: nat) returns (actions: seq<Action>)
    requires Inv(log, rows0, s) && j < |s.jobs|
    requires s.jobs[j].start <= s.jobs[j].end && s.jobs[j].chunkSeconds > 0 && Importable(log, s.jobs[j])
    ensures CompletesWith(log, s, actions, j)
  {
    hide Inv, Importable, RunAll;
    var drain := AllWorkersEnd(log, rows0, s);
    var s1 := RunAll(log, s, drain);
    if s1.jobs[j].status.Complete? {
      actions := drain;
    } else {
      var t := ResumedIsReady(log, s1, j);
      var resume := [Lookup(0, j), StartThread(0, Fine), Work(t, Fine)];
      var s2 := RunAll(log, s1, resume);
      RunKeeps(log, rows0, s, drain);
      RunKeeps(log, rows0, s1, resume);
      ImportableSame(log, s.jobs[j], s2.jobs[j]);
      var rest := ReadyCompletes(log, rows0, s2, t, j);
      actions := drain + resume + rest;
      RunSplits(log, s, drain + resume, rest);
      RunSplits(log, s, drain, resume);
    }
  }

  /** After any run whatsoever, a job can still complete if and only if its range is importable. */
  lemma CompletionIffImportable(log: seq<Entry>, rows0: Rows, before: seq<Action>, j: nat)
    requires j < |RunAll(log, Initial(rows0), before).jobs|
    ensures var s := RunAll(log, Initial(rows0), before);
            && s.jobs[j].start <= s.jobs[j].end && s.jobs[j].chunkSeconds > 0
            && (Importable(log, s.jobs[j]) <==>
                exists after: seq<Action> :: CompletesWith(log, s, after, j))
  {
    ReachableHolds(log, rows0, before);
    var s := RunAll(log, Initial(rows0), before);
    assert JobOk(s.jobs[j]);
    hide Inv, RunAll, Importable;
    if Importable(log, s.jobs[j]) {
      var after := ImportableCompletes(log, rows0, s, j);
      assert CompletesWith(log, s, after, j);
    }
    forall after | CompletesWith(log, s, after, j) ensures Importable(log, s.jobs[j]) {
      RunSplits(log, Initial(rows0), before, after);
      CompleteNeedsImportable(log, rows0, before + after, j);
      SameRequest(log, rows0, s, after, j);
      ImportableSame(log, RunAll(log, s, after).jobs[j], s.jobs[j]);
    }
  }

}
