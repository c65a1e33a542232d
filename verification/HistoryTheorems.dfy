/** What the resumable import promises over all runs. */
module HistoryTheorems {
  import opened Common
  import opened Store
  import opened HistoryImport

  lemma InitialHolds(log: seq<Entry>, rows0: Rows)
    ensures Inv(log, rows0, Initial(rows0))
  {
    hide FirstWith, Records;
  }

  lemma ReachableHolds(log: seq<Entry>, rows0: Rows, actions: seq<Action>)
    ensures Inv(log, rows0, RunAll(log, Initial(rows0), actions))
  {
    InitialHolds(log, rows0);
    hide Inv;
    RunKeeps(log, rows0, Initial(rows0), actions);
  }

  // ---------------------------------------------------------------- workers and cursors

  lemma {:induction false} SubsetSize(a: set<nat>, b: set<nat>)
    requires a <= b
    ensures |a| <= |b|
    decreases |b|
  {
    if b != {} {
      var x :| x in b;
      SubsetSize(a - {x}, b - {x});
      if x in a { assert a == (a - {x}) + {x}; } else { assert a - {x} == a; }
      assert b == (b - {x}) + {x};
    }
  }

  /** Whatever clients and workers do, at most one worker is alive. */
  lemma AtMostOneWorker(log: seq<Entry>, rows0: Rows, actions: seq<Action>)
    ensures |RunAll(log, Initial(rows0), actions).threads| <= 1
  {
    ReachableHolds(log, rows0, actions);
    var s := RunAll(log, Initial(rows0), actions);
    assert OneThread(s);
    hide RunAll, Inv;
    if s.thread.Some? {
      var all := {s.thread.value};
      assert s.threads.Keys <= all;
      SubsetSize(s.threads.Keys, all);
    } else {
      assert s.threads.Keys == {};
    }
  }

  lemma InsertKeepsOthers(log: seq<Entry>, s: State, t: nat, fault: Fault)
    requires t in s.threads && s.threads[t].jobId < |s.jobs| && s.threads[t].pc.Inserting?
    ensures var s', j := WorkerStep(log, s, t, fault), s.threads[t].jobId;
            && |s'.jobs| == |s.jobs| && (forall i :: 0 <= i < |s.jobs| && i != j ==> s'.jobs[i] == s.jobs[i])
            && (s'.jobs[j] == s.jobs[j]
                || s'.jobs[j] == Committed(s.threads[t].pc.job, s.threads[t].pc.hi, s.threads[t].pc.counts)
                                 .(status := s.jobs[j].status))
  {
    hide Answer, Answers, Insert, Inserts, Raises, Mark, Drop, Committed;
  }

  /** A worker step touches one job; it changes its status, or commits a chunk. */
  lemma OwnJob(log: seq<Entry>, s: State, t: nat, fault: Fault)
    requires t in s.threads && s.threads[t].jobId < |s.jobs|
    ensures var s', j, pc := WorkerStep(log, s, t, fault), s.threads[t].jobId, s.threads[t].pc;
            && |s'.jobs| == |s.jobs| && (forall i :: 0 <= i < |s.jobs| && i != j ==> s'.jobs[i] == s.jobs[i])
            && (s'.jobs[j] == s.jobs[j].(status := s'.jobs[j].status)
                || (pc.Inserting?
                    && s'.jobs[j] == Committed(pc.job, pc.hi, pc.counts).(status := s.jobs[j].status)))
  {
    if s.threads[t].pc.Inserting? {
      hide WorkerStep, Committed;
      InsertKeepsOthers(log, s, t, fault);
    } else {
      hide Answer, Answers, Inserted, ChunkCommitted, Committed;
    }
  }

  lemma WorkerCursors(log: seq<Entry>, s: State, t: nat, fault: Fault, j: nat)
    requires t in s.threads && s.threads[t].jobId < |s.jobs| && j < |s.jobs|
    requires ThreadOk(log, s, s.threads[t]) && JobOk(s.jobs[s.threads[t].jobId])
    ensures var s' := WorkerStep(log, s, t, fault);
            && j < |s'.jobs| && s.jobs[j].cursor <= s'.jobs[j].cursor
            && s'.jobs[j].start == s.jobs[j].start && s'.jobs[j].end == s.jobs[j].end
            && s'.jobs[j].chunkSeconds == s.jobs[j].chunkSeconds && s'.jobs[j].maxRecords == s.jobs[j].maxRecords
  {
    OwnJob(log, s, t, fault);
    if s.threads[t].pc.Inserting? { CommitTiles(s.jobs[s.threads[t].jobId]); }
    hide WorkerStep, Known, Raises, Answer, Answers, Tiled;
  }

  /** A client step changes no job but the status of one. */
  lemma ClientCursors(log: seq<Entry>, s: State, a: Action, j: nat)
    requires !a.Work? && j < |s.jobs|
    ensures var s' := Do(log, s, a); j < |s'.jobs| && s'.jobs[j] == s.jobs[j].(status := s'.jobs[j].status)
  {
    hide WorkerStep;
  }

  /** No step moves a cursor back, drops a job, or changes what a job asks for. */
  lemma CursorsNeverDecrease(log: seq<Entry>, rows0: Rows, s: State, a: Action, j: nat)
    requires Inv(log, rows0, s) && j < |s.jobs|
    ensures var s' := Do(log, s, a);
            && j < |s'.jobs| && s.jobs[j].cursor <= s'.jobs[j].cursor
            && s'.jobs[j].start == s.jobs[j].start && s'.jobs[j].end == s.jobs[j].end
            && s'.jobs[j].chunkSeconds == s.jobs[j].chunkSeconds && s'.jobs[j].maxRecords == s.jobs[j].maxRecords
  {
    if a.Work? {
      if a.threadId in s.threads {
        assert ThreadOk(log, s, s.threads[a.threadId]) && JobOk(s.jobs[s.threads[a.threadId].jobId]);
        hide Inv, WorkerStep, ThreadOk, JobOk;
        WorkerCursors(log, s, a.threadId, a.fault, j);
      }
    } else {
      hide *;
      ClientCursors(log, s, a, j);
    }
  }

  function Ceil(n: nat, d: nat): nat
    requires d > 0
  {
    (n + d - 1) / d
  }

  /** The number of chunks of a whole job. */
  function ChunkCount(job: Job): nat
    requires job.start <= job.end && job.chunkSeconds > 0
  {
    Ceil(job.end - job.start + 1, job.chunkSeconds)
  }

  lemma DivAtLeast(n: nat, d: nat)
    requires d > 0
    ensures (n + d) / d >= 1
  {
  }

  lemma CeilBounds(n: nat, d: nat)
    requires d > 0 && n > 0
    ensures Ceil(n, d) > 0 && (Ceil(n, d) - 1) * d < n <= Ceil(n, d) * d
  {
    var q, r := (n + d - 1) / d, (n + d - 1) % d;
    assert n + d - 1 == d * q + r;
    assert (q - 1) * d == d * q - d;
    DivAtLeast(n - 1, d);
  }

  lemma Times(a: nat, b: nat, c: nat)
    requires a <= b
    ensures a * c <= b * c
  {
  }

  lemma TiledToTheEnd(job: Job)
    requires Tiled(job)
    ensures job.cursor == job.end + 1 <==> job.chunks == ChunkCount(job)
    ensures job.chunks <= ChunkCount(job)
  {
    var n, c, len := job.chunks, job.chunkSeconds, job.end - job.start + 1;
    CeilBounds(len, c);
    var m := ChunkCount(job);
    if n > m { Times(m, n - 1, c); }
    if n < m { Times(n, m - 1, c); }
    if n > 0 { assert (n - 1) * c < len; }
  }

  lemma TiledCursor(job: Job)
    requires Tiled(job)
    ensures job.cursor == Min(job.start + job.chunks * job.chunkSeconds, job.end + 1)
    ensures job.start <= job.end && job.chunkSeconds > 0
  {
  }

  /** A job's counters add up at every commit; it has received exactly what was logged in its range up
      to the cursor; the cursor is where its chunks end; a complete job has done exactly the chunks
      of its range. */
  lemma JobAccounting(log: seq<Entry>, rows0: Rows, actions: seq<Action>, j: nat)
    requires j < |RunAll(log, Initial(rows0), actions).jobs|
    ensures var job := RunAll(log, Initial(rows0), actions).jobs[j];
            && job.received == job.imported + job.duplicates
            && job.received == |Answer(log, job.start, job.cursor - 1)|
            && job.cursor == Min(job.start + job.chunks * job.chunkSeconds, job.end + 1)
            && job.start <= job.end && job.chunkSeconds > 0 && job.chunks <= ChunkCount(job)
            && (job.status.Complete? ==> job.cursor == job.end + 1 && job.chunks == ChunkCount(job))
  {
    ReachableHolds(log, rows0, actions);
    hide RunAll, ChunkCount, Tiled, Answer, ChunkFits, Known, Raises, OneThread, ThreadsOk, RowsOk, Counted;
    var job := RunAll(log, Initial(rows0), actions).jobs[j];
    assert JobOk(job) && Covered(log, RunAll(log, Initial(rows0), actions).rows, job);
    TiledToTheEnd(job);
    TiledCursor(job);
  }

  /** The imported counters of all jobs together never exceed the rows that were added. */
  lemma ImportedIsBacked(log: seq<Entry>, rows0: Rows, actions: seq<Action>)
    ensures var s := RunAll(log, Initial(rows0), actions);
            Imported(s.jobs) + |rows0| <= |s.rows|
  {
    ReachableHolds(log, rows0, actions);
  }

  // ---------------------------------------------------------------- rows and counters

  /** The rows that a step keeps out of every counter: those a worker has added when it leaves its
      chunk uncommitted, and in that same step. */
  function LeftOut(s: State, s': State, a: Action): int {
    if a.Work? && a.threadId in s.threads && s.threads[a.threadId].pc.Inserting? && s'.jobs == s.jobs
       && !(a.threadId in s'.threads && s'.threads[a.threadId].pc.Inserting?)
    then s.threads[a.threadId].pc.counts.imported + |s'.rows| - |s.rows|
    else 0
  }

  /** The same for a whole run. */
  function AllLeftOut(log: seq<Entry>, s: State, actions: seq<Action>): int
    decreases |actions|
  {
    if actions == [] then 0
    else LeftOut(s, Do(log, s, actions[0]), actions[0]) + AllLeftOut(log, Do(log, s, actions[0]), actions[1..])
  }

  /** What the counters say of the rows, before or after a step. */
  function Surplus(s: State): int {
    |s.rows| - Imported(s.jobs) - InFlight(s)
  }

  lemma InsertAccounts(log: seq<Entry>, s: State, t: nat, fault: Fault)
    requires OneThread(s) && t in s.threads && s.threads[t].pc.Inserting?
    requires s.threads[t].pc.counts.received < |s.threads[t].pc.answer|
    ensures var s' := WorkerStep(log, s, t, fault); Surplus(s') == Surplus(s) + LeftOut(s, s', Work(t, fault))
  {
    var pc := s.threads[t].pc;
    InsertAdds(s.rows, pc.answer[pc.counts.received]);
    hide Insert, Inserts, Raises, Imported;
  }

  lemma CommitAccounts(log: seq<Entry>, s: State, t: nat, fault: Fault)
    requires OneThread(s) && t in s.threads && s.threads[t].pc.Inserting?
    requires s.threads[t].pc.counts.received == |s.threads[t].pc.answer|
    requires SameProgress(s.threads[t].pc.job, s.jobs[s.threads[t].jobId])
    ensures var s' := WorkerStep(log, s, t, fault); Surplus(s') == Surplus(s) + LeftOut(s, s', Work(t, fault))
  {
    var j, pc, s' := s.threads[t].jobId, s.threads[t].pc, WorkerStep(log, s, t, fault);
    var row := Committed(pc.job, pc.hi, pc.counts).(status := s.jobs[j].status);
    ImportedUpdate(s.jobs, j, row);
    assert row.chunks == s.jobs[j].chunks + 1 && row.imported == s.jobs[j].imported + pc.counts.imported;
    hide Imported, Insert, Inserts, Raises, Committed;
    assert s'.jobs == if fault.Before? then s.jobs else s.jobs[j := row];
    assert s'.jobs != s.jobs <==> !fault.Before? by { assert s.jobs[j := row][j] == row; }
  }

  /** A worker with nothing in flight adds no row and has nothing in flight afterwards. */
  lemma PlainMoves(log: seq<Entry>, s: State, t: nat, fault: Fault)
    requires OneThread(s) && t in s.threads && !s.threads[t].pc.Inserting?
    ensures var s' := WorkerStep(log, s, t, fault); s'.rows == s.rows && InFlight(s) == InFlight(s') == 0
  {
    hide Answer, Answers, Inserted, ChunkCommitted;
  }

  lemma PlainAccounts(log: seq<Entry>, s: State, t: nat, fault: Fault)
    requires OneThread(s) && t in s.threads && !s.threads[t].pc.Inserting?
    ensures var s' := WorkerStep(log, s, t, fault); Surplus(s') == Surplus(s) + LeftOut(s, s', Work(t, fault))
  {
    var s' := WorkerStep(log, s, t, fault);
    PlainMoves(log, s, t, fault);
    OwnJob(log, s, t, fault);
    hide WorkerStep, Imported, InFlight;
    SameImported(s.jobs, s'.jobs);
  }

  lemma ClientMoves(log: seq<Entry>, s: State, a: Action)
    requires OneThread(s) && !a.Work?
    ensures var s' := Do(log, s, a); s'.rows == s.rows && InFlight(s) == InFlight(s')
  {
    hide WorkerStep;
  }

  lemma ClientJobs(log: seq<Entry>, s: State, a: Action)
    requires !a.Work?
    ensures var s' := Do(log, s, a);
            || |s'.jobs| == |s.jobs|
            || (a.Create? && s'.jobs == s.jobs + [NewJob(a.start, a.end, a.chunkSeconds, a.maxRecords)])
  {
    hide WorkerStep, NewJob;
  }

  lemma ClientAccounts(log: seq<Entry>, s: State, a: Action)
    requires OneThread(s) && !a.Work?
    ensures Surplus(Do(log, s, a)) == Surplus(s)
  {
    var s' := Do(log, s, a);
    ClientMoves(log, s, a);
    ClientJobs(log, s, a);
    hide Do, Imported, InFlight, OneThread;
    if |s'.jobs| == |s.jobs| {
      forall j | 0 <= j < |s.jobs| ensures SameProgress(s.jobs[j], s'.jobs[j]) { ClientCursors(log, s, a, j); }
      SameImported(s.jobs, s'.jobs);
    } else {
      ImportedAppend(s.jobs, NewJob(a.start, a.end, a.chunkSeconds, a.maxRecords));
    }
  }

  lemma StepAccounts(log: seq<Entry>, rows0: Rows, s: State, a: Action)
    requires Inv(log, rows0, s)
    ensures Surplus(Do(log, s, a)) == Surplus(s) + LeftOut(s, Do(log, s, a), a)
  {
    assert OneThread(s) && ThreadsOk(log, s);
    if !a.Work? {
      hide *;
      ClientAccounts(log, s, a);
      assert LeftOut(s, Do(log, s, a), a) == 0 by { assert !a.Work?; }
    } else if a.threadId in s.threads {
      var t := a.threadId;
      assert ThreadOk(log, s, s.threads[t]) && s.threads[t].jobId < |s.jobs|;
      hide Inv, WorkerStep, Surplus, LeftOut, OneThread, ThreadsOk, Answers, Answer, Known, Raises, SameProgress;
      if !s.threads[t].pc.Inserting? { PlainAccounts(log, s, t, a.fault); }
      else if s.threads[t].pc.counts.received < |s.threads[t].pc.answer| { InsertAccounts(log, s, t, a.fault); }
      else { CommitAccounts(log, s, t, a.fault); }
    }
  }

  lemma {:induction false} RunAccounts(log: seq<Entry>, rows0: Rows, s: State, actions: seq<Action>)
    requires Inv(log, rows0, s)
    ensures Surplus(RunAll(log, s, actions)) == Surplus(s) + AllLeftOut(log, s, actions)
    decreases |actions|
  {
    if actions != [] {
      StepAccounts(log, rows0, s, actions[0]);
      DoKeeps(log, rows0, s, actions[0]);
      hide Inv, Do, Surplus, LeftOut;
      RunAccounts(log, rows0, Do(log, s, actions[0]), actions[1..]);
    }
  }

  /** The imported counters are exact: after any run, the rows that were added are those counted in
      the jobs, those of the chunk that is under way, and those of the chunks that workers left
      uncommitted. */
  lemma RowsAreAccounted(log: seq<Entry>, rows0: Rows, actions: seq<Action>)
    ensures var s := RunAll(log, Initial(rows0), actions);
            |s.rows| - |rows0| == Imported(s.jobs) + InFlight(s) + AllLeftOut(log, Initial(rows0), actions)
  {
    InitialHolds(log, rows0);
    hide Inv, RunAll, AllLeftOut;
    RunAccounts(log, rows0, Initial(rows0), actions);
  }

  // ---------------------------------------------------------------- agreement with the simple import

  /** The rows of a covered range are those of one import of that range. */
  lemma CoveredAgrees(log: seq<Entry>, rows0: Rows, s: State, j: nat, key: RowKey)
    requires Inv(log, rows0, s) && LogDated(log) && j < |s.jobs| && s.jobs[j].cursor == s.jobs[j].end + 1
    requires InRange(s.jobs[j], key.timestamp)
    ensures var simple := SimpleImport(rows0, log, s.jobs[j].start, s.jobs[j].end);
            (key in s.rows <==> key in simple) && (key in s.rows ==> s.rows[key] == simple[key])
  {
    var job := s.jobs[j];
    var answer := Answer(log, job.start, job.end);
    assert Covered(log, s.rows, job) && FromLog(log, rows0, s.rows);
    hide Inv, KeyOf, Answer, Records, FirstWith, InsertAll, Raises, RowOf, ChunkFits;
    InsertAllAt(rows0, answer, key);
    AnswerFirst(log, job.start, job.end, key);
    if FirstWith(answer, key).Some? {
      FirstHasKey(answer, key);
      var m :| 0 <= m < |answer| && KeyOf(answer[m]) == Some(key);
      var i := AnswerLogged(log, job.start, job.end, m);
      assert Known(s.rows, log[i].record);
    }
  }

  /** Interrupted import equals simple import: however the run was interrupted, failed part-way
      through a chunk, was retried or shared the tables with other jobs, once a job is complete
      its range of the tables is what one first-wins insertion of the log over that range leaves. */
  lemma CompleteAgrees(log: seq<Entry>, rows0: Rows, actions: seq<Action>, j: nat)
    requires LogDated(log) && j < |RunAll(log, Initial(rows0), actions).jobs|
    requires RunAll(log, Initial(rows0), actions).jobs[j].status.Complete?
    ensures var s := RunAll(log, Initial(rows0), actions);
            var simple := SimpleImport(rows0, log, s.jobs[j].start, s.jobs[j].end);
            forall key: RowKey :: InRange(s.jobs[j], key.timestamp) ==>
              (key in s.rows <==> key in simple) && (key in s.rows ==> s.rows[key] == simple[key])
  {
    ReachableHolds(log, rows0, actions);
    var s := RunAll(log, Initial(rows0), actions);
    assert JobOk(s.jobs[j]);
    hide Inv, RunAll, SimpleImport;
    forall key: RowKey | InRange(s.jobs[j], key.timestamp)
      ensures var simple := SimpleImport(rows0, log, s.jobs[j].start, s.jobs[j].end);
              (key in s.rows <==> key in simple) && (key in s.rows ==> s.rows[key] == simple[key])
    {
      CoveredAgrees(log, rows0, s, j, key);
    }
  }

  lemma SameRows(a: Rows, b: Rows, job: Job)
    requires forall k: RowKey :: InRange(job, k.timestamp) ==> (k in a <==> k in b) && (k in a ==> a[k] == b[k])
    requires forall k: RowKey :: !InRange(job, k.timestamp) ==> (k in a <==> k in b) && (k in a ==> a[k] == b[k])
    ensures a == b
  {
    hide InRange;
    assert forall k: RowKey :: k in a <==> k in b;
  }

  /** Outside the range of its only job, the tables are as they were. */
  lemma OnlyAsked(log: seq<Entry>, rows0: Rows, s: State, key: RowKey)
    requires |s.jobs| == 1 && FromLog(log, rows0, s.rows) && Asked(rows0, s) && !InRange(s.jobs[0], key.timestamp)
    ensures (key in s.rows <==> key in rows0) && (key in rows0 ==> s.rows[key] == rows0[key])
  {
    hide KeyOf, RowOf, FirstWith, Records;
  }

  lemma OutsideUntouched(log: seq<Entry>, rows0: Rows, job: Job, key: RowKey)
    requires LogDated(log) && !InRange(job, key.timestamp)
    ensures var simple := SimpleImport(rows0, log, job.start, job.end);
            (key in simple <==> key in rows0) && (key in rows0 ==> simple[key] == rows0[key])
  {
    var answer := Answer(log, job.start, job.end);
    hide KeyOf, Answer, FirstWith, InsertAll, RowOf;
    InsertAllAt(rows0, answer, key);
    FirstHasKey(answer, key);
    if FirstWith(answer, key).Some? {
      var m :| 0 <= m < |answer| && KeyOf(answer[m]) == Some(key);
      var i := AnswerLogged(log, job.start, job.end, m);
    }
  }

  /** With a single job the whole tables agree, outside its range too. */
  lemma SoleJobAgrees(log: seq<Entry>, rows0: Rows, actions: seq<Action>)
    requires LogDated(log) && |RunAll(log, Initial(rows0), actions).jobs| == 1
    requires RunAll(log, Initial(rows0), actions).jobs[0].status.Complete?
    ensures var s := RunAll(log, Initial(rows0), actions);
            s.rows == SimpleImport(rows0, log, s.jobs[0].start, s.jobs[0].end)
  {
    CompleteAgrees(log, rows0, actions, 0);
    ReachableHolds(log, rows0, actions);
    var s := RunAll(log, Initial(rows0), actions);
    var job := s.jobs[0];
    var simple := SimpleImport(rows0, log, job.start, job.end);
    assert FromLog(log, rows0, s.rows) && Asked(rows0, s);
    hide RunAll, Inv, SimpleImport, FromLog, Asked;
    forall key: RowKey | !InRange(job, key.timestamp)
      ensures (key in s.rows <==> key in simple) && (key in s.rows ==> s.rows[key] == simple[key])
    {
      OutsideUntouched(log, rows0, job, key);
      OnlyAsked(log, rows0, s, key);
    }
    SameRows(s.rows, simple, job);
  }

  // ---------------------------------------------------------------- composing runs

  lemma {:induction false} RunSplits(log: seq<Entry>, s: State, a: seq<Action>, b: seq<Action>)
    ensures RunAll(log, s, a + b) == RunAll(log, RunAll(log, s, a), b)
    decreases |a|
  {
    hide Do;
    if a == [] {
      assert a + b == b;
    } else {
      RunSplits(log, Do(log, s, a[0]), a[1..], b);
      assert (a + b)[1..] == a[1..] + b;
    }
  }

  lemma RunOneStep(log: seq<Entry>, s: State, a: Action)
    ensures RunAll(log, s, [a]) == Do(log, s, a)
  {
    hide Do;
    assert [a][1..] == [];
  }

  lemma RunTwo(log: seq<Entry>, s: State, a: Action, b: Action)
    ensures RunAll(log, s, [a, b]) == Do(log, Do(log, s, a), b)
  {
    RunOneStep(log, s, a);
    RunOneStep(log, Do(log, s, a), b);
    hide Do;
    RunSplits(log, s, [a], [b]);
    assert [a, b] == [a] + [b];
  }

  lemma RunThree(log: seq<Entry>, s: State, a: Action, b: Action, c: Action)
    ensures RunAll(log, s, [a, b, c]) == Do(log, Do(log, Do(log, s, a), b), c)
  {
    RunTwo(log, s, a, b);
    RunOneStep(log, Do(log, Do(log, s, a), b), c);
    hide Do;
    RunSplits(log, s, [a, b], [c]);
    assert [a, b, c] == [a, b] + [c];
  }

  lemma {:induction false} SameRequest(log: seq<Entry>, rows0: Rows, s: State, actions: seq<Action>, j: nat)
    requires Inv(log, rows0, s) && j < |s.jobs|
    ensures var s' := RunAll(log, s, actions);
            && j < |s'.jobs| && s'.jobs[j].start == s.jobs[j].start && s'.jobs[j].end == s.jobs[j].end
            && s'.jobs[j].chunkSeconds == s.jobs[j].chunkSeconds && s'.jobs[j].maxRecords == s.jobs[j].maxRecords
    decreases |actions|
  {
    if actions != [] {
      CursorsNeverDecrease(log, rows0, s, actions[0], j);
      DoKeeps(log, rows0, s, actions[0]);
      hide Inv, Do;
      SameRequest(log, rows0, Do(log, s, actions[0]), actions[1..], j);
    }
  }
}
