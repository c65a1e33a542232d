/** The history manager as an object (tools/history_manager.py).  Every method is proved to be a
    run of the state machine, so what holds over all runs holds of the object. */
module HistoryManager {
  import opened Common
  import opened Store
  import opened HistoryImport
  import opened HistoryTheorems

  datatype ManagerError = UnknownJob | InvalidRequest | AnotherJobRunning | StoreFailed

  lemma Extended(log: seq<Entry>, s: State, trace: seq<Action>, a: Action)
    ensures RunAll(log, s, trace + [a]) == Do(log, RunAll(log, s, trace), a)
  {
    RunSplits(log, s, trace, [a]);
    RunOneStep(log, RunAll(log, s, trace), a);
  }

  /** Nothing but steps of worker `t`. */
  ghost predicate OnlyWork(trace: seq<Action>, t: nat) {
    forall i :: 0 <= i < |trace| ==> trace[i].Work? && trace[i].threadId == t
  }

  /** What a resume does unless it stops at its lookup. */
  ghost predicate IsResume(trace: seq<Action>, jobId: nat, client: nat) {
    && |trace| == 2 && trace[0] == Lookup(client, jobId)
    && trace[1].StartThread? && trace[1] == StartThread(client, trace[1].fault)
  }

  /** What a create does: if nothing fails before, it resumes the new job. */
  ghost predicate IsCreate(trace: seq<Action>, start: int, end: int, chunkSeconds: nat, maxRecords: nat,
                           jobId: nat, client: nat) {
    && trace != [] && trace[0].Create?
    && trace[0] == Create(start, end, chunkSeconds, maxRecords, trace[0].fault)
    && (|trace| == 1 || (trace[0].fault.Fine? && IsResume(trace[1..], jobId, client)))
  }

  ghost predicate IsCancel(trace: seq<Action>, jobId: nat, client: nat) {
    && |trace| == 3 && trace[..2] == [CancelCheck(client, jobId), CancelSet(client)]
    && trace[2].CancelMark? && trace[2] == CancelMark(client, trace[2].fault)
  }

  lemma OneMoreWork(trace: seq<Action>, t: nat, fault: Fault)
    requires OnlyWork(trace, t)
    ensures OnlyWork(trace + [Work(t, fault)], t)
  {
  }

  lemma Same(job: Job)
    ensures SameProgress(job, job)
  {
  }

  class Manager {
    /** What the device has logged. */
    const log: seq<Entry>
    const store: MonitoringStore
    /** The live threads and where each is. */
    var threads: map<nat, Thread>
    var thread: Option<nat>
    var nextThread: nat
    var cancel: bool
    var active: Option<nat>
    /** Client calls that are between two of their steps. */
    var clients: map<nat, Client>

    constructor (log: seq<Entry>, store: MonitoringStore)
      requires store.jobs == []
      ensures this.log == log && this.store == store && Snap() == Initial(store.rows)
    {
      this.log, this.store := log, store;
      threads, thread, nextThread, cancel, active, clients := map[], None, 0, false, None, map[];
    }

    function Snap(): State
      reads this, store
    {
      State(store.rows, store.jobs, threads, thread, nextThread, cancel, active, clients)
    }

    predicate Alive()
      reads this
    {
      thread.Some? && thread.value in threads
    }

    /** The locked part of resume: at most one thread is started while another lives. */
    method Start(client: nat) returns (started: Result<bool, ManagerError>, ghost fault: Fault)
      requires client in clients && clients[client].LookedUp? && clients[client].jobId < |store.jobs|
      modifies this, store
      ensures Snap() == Do(log, old(Snap()), StartThread(client, fault))
      ensures old(Alive()) ==> started == Success(false)
      ensures !old(Alive()) ==> started == if fault.Fine? then Success(true) else Failure(StoreFailed)
    {
      var jobId := clients[client].jobId;
      clients := clients - {client};
      if thread.Some? && thread.value in threads {
        return Success(false), Fine;
      }
      cancel := false;
      active := Some(jobId);
      var job;
      job, fault := store.UpdateStatus(jobId, Queued);
      if job.Failure? {
        return Failure(StoreFailed), fault;
      }
      thread := Some(nextThread);
      threads := threads[nextThread := Thread(jobId, Starting)];
      nextThread := nextThread + 1;
      return Success(true), fault;
    }

    /** resume: complete jobs are left alone; a live worker of this job is left running, and one of
        another job is an error.  The store may fail in the lookup, in the write of the status, or in
        the last readback. */
    method Resume(jobId: nat, client: nat) returns (r: Result<Job, ManagerError>, ghost trace: seq<Action>)
      modifies this, store
      ensures Snap() == RunAll(log, old(Snap()), trace)
      // what it did: nothing, or a lookup and a start
      ensures trace == [] || IsResume(trace, jobId, client)
      ensures jobId >= |old(store.jobs)| || old(store.jobs)[jobId].status.Complete? ==> trace == []
      ensures trace == [] ==> Snap() == old(Snap())
      // what it returned
      ensures r == Failure(UnknownJob) ==> jobId >= |old(store.jobs)|
      ensures jobId >= |old(store.jobs)| ==> r == Failure(UnknownJob) || r == Failure(StoreFailed)
      ensures jobId < |old(store.jobs)| && trace == [] ==>
                r == Failure(StoreFailed)
                || (old(store.jobs)[jobId].status.Complete? && r == Success(old(store.jobs)[jobId]))
      ensures trace != [] && old(Alive()) ==>
                store.jobs == old(store.jobs) && active == old(active) && threads == old(threads)
                && r == if active == Some(jobId) then Success(store.jobs[jobId]) else Failure(AnotherJobRunning)
      ensures trace != [] && !old(Alive()) ==> active == Some(jobId) && (r.Success? || r == Failure(StoreFailed))
      ensures trace != [] && !old(Alive()) && r.Success? ==>
                && store.jobs == old(store.jobs)[jobId := old(store.jobs)[jobId].(status := Queued)]
                && r.value == store.jobs[jobId] && Alive() && threads[thread.value] == Thread(jobId, Starting)
                && !cancel
    {
      trace := [];
      var found := store.HistoryJob(jobId);
      if found.Failure? {
        return Failure(StoreFailed), trace;
      }
      if found.value.None? {
        return Failure(UnknownJob), trace;
      }
      var job := found.value.value;
      if job.status.Complete? {
        return Success(job), trace;
      }
      ghost var s0 := Snap();
      clients := clients[client := LookedUp(jobId)];
      assert Snap() == Do(log, s0, Lookup(client, jobId));
      hide RunAll;
      var started;
      ghost var fault;
      started, fault := Start(client);
      trace := [Lookup(client, jobId), StartThread(client, fault)];
      RunTwo(log, s0, Lookup(client, jobId), StartThread(client, fault));
      if started.Failure? {
        return Failure(StoreFailed), trace;
      }
      if !started.value {
        return if active == Some(jobId) then Success(job) else Failure(AnotherJobRunning), trace;
      }
      found := store.HistoryJob(jobId);
      if found.Failure? {
        return Failure(StoreFailed), trace;
      }
      return Success(found.value.value), trace;
    }

    /** create: validates, stores the job, and resumes it.  While a worker lives, or after a failure
        in between, the job is stored all the same but not started. */
    method Create(start: int, end: int, chunkSeconds: nat, maxRecords: nat, client: nat)
      returns (r: Result<Job, ManagerError>, ghost trace: seq<Action>)
      modifies this, store
      ensures Snap() == RunAll(log, old(Snap()), trace)
      ensures r == Failure(InvalidRequest) <==> !ValidRequest(start, end, chunkSeconds, maxRecords)
      ensures r != Failure(InvalidRequest) <==>
              && 0 <= end - start <= 366 * 24 * 60 * 60 && 300 <= chunkSeconds <= 7 * 24 * 60 * 60
              && 1 <= maxRecords <= 2000
      ensures r == Failure(InvalidRequest) ==> trace == [] && Snap() == old(Snap())
      // what it did
      ensures r != Failure(InvalidRequest) ==>
                IsCreate(trace, start, end, chunkSeconds, maxRecords, |old(store.jobs)|, client)
      ensures r.Success? ==> |store.jobs| == |old(store.jobs)| + 1 && r.value == store.jobs[|old(store.jobs)|]
      ensures r.Success? && !old(Alive()) ==>
                && r.value == Job(start, end, chunkSeconds, maxRecords, Queued, start, 0, 0, 0, 0)
                && active == Some(|old(store.jobs)|) && !cancel
                && Alive() && threads[thread.value] == Thread(|old(store.jobs)|, Starting)
      ensures r == Failure(AnotherJobRunning) ==>
                old(Alive()) && store.jobs == old(store.jobs) + [NewJob(start, end, chunkSeconds, maxRecords)]
    {
      if !ValidRequest(start, end, chunkSeconds, maxRecords) {
        return Failure(InvalidRequest), [];
      }
      ghost var s0 := Snap();
      var id;
      ghost var fault;
      id, fault := store.CreateHistoryJob(start, end, chunkSeconds, maxRecords);
      ghost var first := HistoryImport.Create(start, end, chunkSeconds, maxRecords, fault);
      assert Snap() == Do(log, s0, first);
      hide RunAll;
      RunOneStep(log, s0, first);
      trace := [first];
      if id.Failure? {
        return Failure(StoreFailed), trace;
      }
      var resumed;
      ghost var rest;
      resumed, rest := Resume(id.value, client);
      RunSplits(log, s0, [first], rest);
      trace := [first] + rest;
      assert trace[1..] == rest;
      if resumed.Failure? {
        return Failure(resumed.error), trace;
      }
      var found := store.HistoryJob(id.value);
      if found.Failure? {
        return Failure(StoreFailed), trace;
      }
      return Success(found.value.value), trace;
    }

    /** cancel: only the active job is told to stop. */
    method Cancel(jobId: nat, client: nat) returns (r: Result<Job, ManagerError>, ghost trace: seq<Action>)
      modifies this, store
      ensures Snap() == RunAll(log, old(Snap()), trace)
      ensures old(active) != Some(jobId) ==> trace == [] && Snap() == old(Snap())
      ensures old(active) != Some(jobId) ==>
                r == Failure(StoreFailed)
                || r == if jobId < |store.jobs| then Success(store.jobs[jobId]) else Failure(UnknownJob)
      ensures old(active) == Some(jobId) ==> cancel && IsCancel(trace, jobId, client)
      ensures old(active) == Some(jobId) ==>
                (r.Success? <==> trace[2].fault.Fine? && jobId < |store.jobs|)
                && (r.Success? ==> r.value == store.jobs[jobId] && r.value.status == Cancelling)
    {
      trace := [];
      if active != Some(jobId) {
        var found := store.HistoryJob(jobId);
        if found.Failure? {
          return Failure(StoreFailed), trace;
        }
        return if found.value.None? then Failure(UnknownJob) else Success(found.value.value), trace;
      }
      ghost var s0 := Snap();
      ghost var s1 := Do(log, s0, CancelCheck(client, jobId));
      ghost var s2 := Do(log, s1, CancelSet(client));
      hide RunAll;
      cancel := true;
      var job;
      ghost var fault;
      job, fault := store.UpdateStatus(jobId, Cancelling);
      RunThree(log, s0, CancelCheck(client, jobId), CancelSet(client), CancelMark(client, fault));
      trace := [CancelCheck(client, jobId), CancelSet(client), CancelMark(client, fault)];
      clients := clients - {client};
      assert s2.clients == s0.clients[client := Checked(jobId)][client := Flagged(jobId)];
      assert s2.clients - {client} == clients;
      assert Snap() == Do(log, s2, CancelMark(client, fault));
      r := if job.Success? then Success(job.value)
           else if job.error.KeyError? then Failure(UnknownJob) else Failure(StoreFailed);
    }

    /** stop: every worker is told to stop; the wait for it is not modelled. */
    method Stop() returns (ghost trace: seq<Action>)
      modifies this
      ensures cancel && store.jobs == old(store.jobs) && active == old(active) && threads == old(threads)
      ensures trace == [HistoryImport.Stop] && Snap() == RunAll(log, old(Snap()), trace)
    {
      trace := [HistoryImport.Stop];
      RunOneStep(log, Snap(), HistoryImport.Stop);
      cancel := true;
    }

    ghost predicate At(t: nat, j: nat, pc: Pc)
      reads this, store
    {
      t in threads && threads[t] == Thread(j, pc) && j < |store.jobs|
    }

    /** One insert.  It may fail, before or after the row is stored, and the record may raise. */
    method InsertOne(t: nat, j: nat, job: Job, hi: int, answer: seq<Record>, counts: Counts,
                     ghost s0: State, ghost before: seq<Action>)
      returns (ok: bool, next: Counts, ghost fault: Fault)
      requires At(t, j, Inserting(job, hi, answer, counts)) && counts.received < |answer|
      requires Snap() == RunAll(log, s0, before)
      modifies this`threads, store`rows
      ensures Snap() == RunAll(log, s0, before + [Work(t, fault)])
      ensures ok <==> fault.Fine? && !Raises(answer[counts.received])
      ensures ok ==> At(t, j, Inserting(job, hi, answer, next)) && next.received == counts.received + 1
      ensures ok ==> next.imported == counts.imported + |store.rows| - |old(store.rows)|
                     && next.duplicates == counts.duplicates + 1 - (|store.rows| - |old(store.rows)|)
      ensures !ok ==> At(t, j, Failing) && next == counts
    {
      hide RunAll, Insert, Inserts, Raises;
      ghost var s := Snap();
      var inserted;
      InsertAdds(store.rows, answer[counts.received]);
      inserted, fault := store.InsertRecord(answer[counts.received]);
      Extended(log, s0, before, Work(t, fault));
      next := counts;
      ok := inserted.Success?;
      if ok {
        next := next.(received := next.received + 1);
        if inserted.value {
          next := next.(imported := next.imported + 1);
        } else {
          next := next.(duplicates := next.duplicates + 1);
        }
      }
      threads := threads[t := Thread(j, if ok then Inserting(job, hi, answer, next) else Failing)];
      assert Snap() == Do(log, s, Work(t, fault));
    }

    /** The inserts of one chunk. */
    method InsertChunk(t: nat, j: nat, job: Job, hi: int, answer: seq<Record>)
      returns (ok: bool, counts: Counts, ghost trace: seq<Action>)
      requires At(t, j, Inserting(job, hi, answer, Counts(0, 0, 0)))
      modifies this`threads, store`rows
      ensures Snap() == RunAll(log, old(Snap()), trace) && OnlyWork(trace, t)
      ensures cancel == old(cancel) && store.jobs == old(store.jobs)
      ensures ok ==> counts.received == |answer| && At(t, j, Inserting(job, hi, answer, counts))
      ensures !ok ==> At(t, j, Failing)
    {
      ghost var s0 := Snap();
      trace, counts := [], Counts(0, 0, 0);
      while counts.received < |answer|
        invariant counts.received <= |answer| && At(t, j, Inserting(job, hi, answer, counts))
        invariant Snap() == RunAll(log, s0, trace) && OnlyWork(trace, t) && store.jobs == old(store.jobs)
        decreases |answer| - counts.received
      {
        hide RunAll, OnlyWork;
        ghost var fault;
        ok, counts, fault := InsertOne(t, j, job, hi, answer, counts, s0, trace);
        OneMoreWork(trace, t, fault);
        trace := trace + [Work(t, fault)];
        if !ok {
          return false, counts, trace;
        }
      }
      return true, counts, trace;
    }

    /** The fetch: the device may fail, and it may not answer with the whole chunk. */
    method Fetch(t: nat, j: nat, job: Job) returns (answer: Option<seq<Record>>, ghost fault: Fault)
      requires At(t, j, Looping(job)) && !cancel && job.cursor <= job.end
      modifies this`threads
      ensures Snap() == RunAll(log, old(Snap()), [Work(t, fault)])
      ensures answer.Some? <==> fault.Fine? && Answers(log, job)
      ensures answer.Some? ==>
                answer.value == Answer(log, job.cursor, ChunkEnd(job))
                && At(t, j, Inserting(job, ChunkEnd(job), answer.value, Counts(0, 0, 0)))
      ensures answer.None? ==> At(t, j, Failing)
    {
      ghost var s0 := Snap();
      var failed: bool := *;
      fault := if failed then Before else Fine;
      RunOneStep(log, s0, Work(t, fault));
      hide RunAll;
      answer := None;
      var end := Min(job.cursor + job.chunkSeconds - 1, job.end);
      if !failed && Answers(log, job) {
        answer := Some(Answer(log, job.cursor, end));
        threads := threads[t := Thread(j, Inserting(job, end, answer.value, Counts(0, 0, 0)))];
      } else {
        threads := threads[t := Thread(j, Failing)];
      }
      assert Snap() == Do(log, s0, Work(t, fault));
    }

    method CommitChunk(t: nat, j: nat, job: Job, end: int, answer: seq<Record>, counts: Counts,
                       ghost s0: State, ghost before: seq<Action>)
      returns (next: Job, ok: bool, ghost fault: Fault)
      requires At(t, j, Inserting(job, end, answer, counts)) && counts.received == |answer|
      requires SameProgress(job, store.jobs[j]) && Snap() == RunAll(log, s0, before)
      modifies this`threads, store`jobs
      ensures Snap() == RunAll(log, s0, before + [Work(t, fault)]) && (ok <==> fault.Fine?)
      ensures var row := Committed(job, end, counts).(status := old(store.jobs)[j].status);
              && store.jobs == (if fault.Before? then old(store.jobs) else old(store.jobs)[j := row])
              && if ok then next == row && At(t, j, Looping(next)) else next == job && At(t, j, Failing)
    {
      hide RunAll;
      ghost var s := Snap();
      var updated;
      updated, fault := store.UpdateProgress(j, end + 1, job.chunks + 1, job.received + counts.received,
                                             job.imported + counts.imported, job.duplicates + counts.duplicates);
      Extended(log, s0, before, Work(t, fault));
      ok := updated.Success?;
      next := if ok then updated.value else job;
      threads := threads[t := Thread(j, if ok then Looping(next) else Failing)];
      assert Snap() == Do(log, s, Work(t, fault));
    }

    /** One pass of the worker's loop: fetch, insert, commit.  The commit is one write of the
        cursor and the counters, so after a failure the job is where it was or behind the chunk. */
    method RunChunk(t: nat, j: nat, job: Job) returns (ok: bool, next: Job, ghost trace: seq<Action>)
      requires At(t, j, Looping(job)) && !cancel && job.cursor <= job.end && job.chunkSeconds > 0
      requires SameProgress(job, store.jobs[j])
      modifies this`threads, store
      ensures Snap() == RunAll(log, old(Snap()), trace) && OnlyWork(trace, t)
      ensures |store.jobs| == |old(store.jobs)|
      ensures forall i :: 0 <= i < |store.jobs| && i != j ==> store.jobs[i] == old(store.jobs)[i]
      ensures store.jobs[j] == old(store.jobs)[j]
              || (store.jobs[j].cursor == ChunkEnd(job) + 1 && store.jobs[j].chunks == job.chunks + 1
                  && store.jobs[j].status == old(store.jobs)[j].status)
      ensures ok ==> At(t, j, Looping(next)) && SameProgress(next, store.jobs[j]) && next.cursor == ChunkEnd(job) + 1
                     && next.end == job.end && next.chunkSeconds == job.chunkSeconds
      ensures !ok ==> At(t, j, Failing) && next == job
    {
      hide RunAll, Answer, Answers;
      ghost var s0 := Snap();
      next := job;
      var answer;
      ghost var fault;
      answer, fault := Fetch(t, j, job);
      trace := [Work(t, fault)];
      if answer.None? {
        return false, job, trace;
      }
      var inserted, counts, inner := InsertChunk(t, j, job, ChunkEnd(job), answer.value);
      RunSplits(log, s0, trace, inner);
      trace := trace + inner;
      if !inserted {
        return false, job, trace;
      }
      next, ok, fault := CommitChunk(t, j, job, ChunkEnd(job), answer.value, counts, s0, trace);
      trace := trace + [Work(t, fault)];
    }

    /** The last write of the loop, which may fail like any other: if it fails after it is stored,
        the handler writes over it. */
    method WriteEnd(t: nat, j: nat, job: Job, ghost s0: State, ghost before: seq<Action>)
      returns (ok: bool, ghost fault: Fault)
      requires At(t, j, Looping(job)) && (job.cursor > job.end || cancel)
      requires Snap() == RunAll(log, s0, before)
      modifies this`threads, store`jobs
      ensures Snap() == RunAll(log, s0, before + [Work(t, fault)]) && (ok <==> fault.Fine?)
      ensures var status := if job.cursor > job.end then Complete else Paused;
              store.jobs == if fault.Before? then old(store.jobs)
                            else old(store.jobs)[j := old(store.jobs)[j].(status := status)]
      ensures At(t, j, if ok then Finishing else Failing)
    {
      hide RunAll;
      ghost var s := Snap();
      var updated;
      updated, fault := store.UpdateStatus(j, if job.cursor > job.end then Complete else Paused);
      Extended(log, s0, before, Work(t, fault));
      ok := updated.Success?;
      threads := threads[t := Thread(j, if ok then Finishing else Failing)];
      assert Snap() == Do(log, s, Work(t, fault));
    }

    /** The exception handler, whose own write may fail too. */
    method HandleFailure(t: nat, j: nat, ghost s0: State, ghost before: seq<Action>) returns (ghost fault: Fault)
      requires At(t, j, Failing) && Snap() == RunAll(log, s0, before)
      modifies this`threads, store`jobs
      ensures Snap() == RunAll(log, s0, before + [Work(t, fault)]) && At(t, j, Finishing)
      ensures store.jobs == if fault.Before? then old(store.jobs)
                            else old(store.jobs)[j := old(store.jobs)[j].(status := Paused)]
    {
      hide RunAll;
      ghost var s := Snap();
      var _, outcome := store.UpdateStatus(j, Paused);
      fault := outcome;
      Extended(log, s0, before, Work(t, fault));
      threads := threads[t := Thread(j, Finishing)];
      assert Snap() == Do(log, s, Work(t, fault));
    }

    /** The finally block, and the end of the thread. */
    method Leave(t: nat, j: nat, ghost s0: State, ghost before: seq<Action>) returns (ghost trace: seq<Action>)
      requires At(t, j, Finishing) && Snap() == RunAll(log, s0, before)
      modifies this
      ensures Snap() == RunAll(log, s0, trace) && trace == before + [Work(t, Fine)] + [Work(t, Fine)]
      ensures t !in threads && active == None && store.jobs == old(store.jobs)
    {
      hide RunAll;
      ghost var s := Snap();
      Extended(log, s0, before, Work(t, Fine));
      Extended(log, s0, before + [Work(t, Fine)], Work(t, Fine));
      active := None;
      threads := threads[t := Thread(j, Leaving)];
      assert Snap() == Do(log, s, Work(t, Fine));
      s := Snap();
      threads := threads - {t};
      assert Snap() == Do(log, s, Work(t, Fine));
      trace := before + [Work(t, Fine)] + [Work(t, Fine)];
    }

    /** The first write of the worker, outside its error handling: if it fails, stored or not, the
        thread dies with the active job still set. */
    method Begin(t: nat, j: nat) returns (job: Option<Job>, ghost fault: Fault)
      requires At(t, j, Starting)
      modifies this`threads, store`jobs
      ensures Snap() == RunAll(log, old(Snap()), [Work(t, fault)]) && (job.Some? <==> fault.Fine?)
      ensures store.jobs == if fault.Before? then old(store.jobs)
                            else old(store.jobs)[j := old(store.jobs)[j].(status := Running)]
      ensures job.Some? ==> At(t, j, Looping(job.value)) && job.value == store.jobs[j]
      ensures job.None? ==> t !in threads
    {
      ghost var s0 := Snap();
      hide RunAll;
      var updated;
      updated, fault := store.UpdateStatus(j, Running);
      RunOneStep(log, s0, Work(t, fault));
      if updated.Success? {
        threads := threads[t := Thread(j, Looping(updated.value))];
        job := Some(updated.value);
      } else {
        threads := threads - {t};
        job := None;
      }
      assert Snap() == Do(log, s0, Work(t, fault));
    }

    /** The worker: runs chunks until the range is done, a cancel is seen or something fails.  It
        always ends, and what it did is a run of worker steps. */
    method Run(t: nat) returns (ghost trace: seq<Action>)
      requires t in threads && threads[t].pc.Starting? && threads[t].jobId < |store.jobs|
      requires store.jobs[threads[t].jobId].chunkSeconds > 0
      modifies this, store
      ensures Snap() == RunAll(log, old(Snap()), trace) && OnlyWork(trace, t) && t !in threads
    {
      hide RunAll, SameProgress, Do;
      ghost var s0 := Snap();
      var j := threads[t].jobId;
      var begun;
      ghost var fault;
      begun, fault := Begin(t, j);
      trace := [Work(t, fault)];
      if begun.None? {
        return;
      }
      var ok, job := true, begun.value;
      assert SameProgress(job, store.jobs[j]) by { Same(job); }
      while ok && job.cursor <= job.end && !cancel
        invariant Snap() == RunAll(log, s0, trace) && OnlyWork(trace, t) && job.chunkSeconds > 0
        invariant ok ==> At(t, j, Looping(job)) && SameProgress(job, store.jobs[j])
        invariant !ok ==> At(t, j, Failing)
        decreases ok, job.end - job.cursor + 1
      {
        ghost var inner;
        ok, job, inner := RunChunk(t, j, job);
        RunSplits(log, s0, trace, inner);
        trace := trace + inner;
      }
      if ok {
        ok, fault := WriteEnd(t, j, job, s0, trace);
        trace := trace + [Work(t, fault)];
      }
      if !ok {
        fault := HandleFailure(t, j, s0, trace);
        trace := trace + [Work(t, fault)];
      }
      trace := Leave(t, j, s0, trace);
    }
  }
}
