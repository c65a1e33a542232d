/** The resumable history import as a state machine (tools/history_manager.py over the job and
    measurement tables of tools/monitoring_store.py): worker threads and client calls take
    atomic steps in any order, and any of them may fail, before or after it has taken effect. */
module HistoryImport {
  import opened Common
  import opened Store

  // ---------------------------------------------------------------- the device

  /** A logged record and the time by which the device selects it. */
  datatype Entry = Entry(epoch: int, record: Record)

  /** A record that has a timestamp was logged at that time. */
  predicate LogDated(log: seq<Entry>) {
    forall i :: 0 <= i < |log| && KeyOf(log[i].record).Some? ==> KeyOf(log[i].record).value.timestamp == log[i].epoch
  }

  /** The device's answer to an inclusive range. */
  function Answer(log: seq<Entry>, lo: int, hi: int): seq<Record> {
    if log == [] then []
    else (if lo <= log[0].epoch <= hi then [log[0].record] else []) + Answer(log[1..], lo, hi)
  }

  /** The import it must agree with: the whole range at once. */
  function SimpleImport(rows: Rows, log: seq<Entry>, lo: int, hi: int): Rows {
    InsertAll(rows, Answer(log, lo, hi))
  }

  // ---------------------------------------------------------------- states

  /** What the cursor's owner wrote: everything but the status, which clients write too. */
  predicate SameProgress(a: Job, b: Job) {
    a == b.(status := a.status)
  }

  datatype Counts = Counts(received: nat, imported: nat, duplicates: nat)

  /** Where a worker is: `job` is its own copy of the row. */
  datatype Pc =
    | Starting
    | Looping(job: Job)
    | Inserting(job: Job, hi: int, answer: seq<Record>, counts: Counts)
    | Failing
    | Finishing
    | Leaving

  datatype Thread = Thread(jobId: nat, pc: Pc)

  /** Where a client call is between its atomic steps. */
  datatype Client = LookedUp(jobId: nat) | Checked(jobId: nat) | Flagged(jobId: nat)

  /** `threads` are the live threads; `thread` is the one the manager remembers. */
  datatype State = State(
    rows: Rows, jobs: seq<Job>, threads: map<nat, Thread>, thread: Option<nat>, nextThread: nat,
    cancel: bool, active: Option<nat>, clients: map<nat, Client>)

  function Initial(rows: Rows): State {
    State(rows, [], map[], None, 0, false, None, map[])
  }

  // ---------------------------------------------------------------- steps

  /** What goes wrong in a step is a fault of the store or of the device.  A lookup that fails is
      no step. */
  datatype Action =
    | Create(start: int, end: int, chunkSeconds: nat, maxRecords: nat, fault: Fault)
    | Lookup(client: nat, jobId: nat)
    | StartThread(client: nat, fault: Fault)
    | CancelCheck(client: nat, jobId: nat)
    | CancelSet(client: nat)
    | CancelMark(client: nat, fault: Fault)
    | Stop
    | Work(threadId: nat, fault: Fault)

  predicate ValidRequest(start: int, end: int, chunkSeconds: nat, maxRecords: nat) {
    start <= end && end - start <= 366 * 86400 && 300 <= chunkSeconds <= 7 * 86400 && 1 <= maxRecords <= 2000
  }

  function ChunkEnd(job: Job): int {
    Min(job.cursor + job.chunkSeconds - 1, job.end)
  }

  /** The device refuses ranges outside 32 bits, and gives up on too many records. */
  predicate Answers(log: seq<Entry>, job: Job) {
    0 <= job.cursor <= ChunkEnd(job) <= 0xFFFFFFFF && |Answer(log, job.cursor, ChunkEnd(job))| <= job.maxRecords
  }

  function Committed(job: Job, hi: int, counts: Counts): Job {
    job.(cursor := hi + 1, chunks := job.chunks + 1, received := job.received + counts.received,
         imported := job.imported + counts.imported, duplicates := job.duplicates + counts.duplicates)
  }

  function Move(s: State, t: nat, pc: Pc): State
    requires t in s.threads
  {
    s.(threads := s.threads[t := s.threads[t].(pc := pc)])
  }

  function Drop(s: State, t: nat): State {
    s.(threads := s.threads - {t})
  }

  function SetStatus(s: State, j: nat, status: Status): State
    requires j < |s.jobs|
  {
    s.(jobs := s.jobs[j := s.jobs[j].(status := status)])
  }

  /** A write of a status that may fail. */
  function Mark(s: State, j: nat, status: Status, fault: Fault): State
    requires j < |s.jobs|
  {
    if fault.Before? then s else SetStatus(s, j, status)
  }

  /** After the insert of the next record of a chunk. */
  function Inserted(s: State, t: nat): State
    requires t in s.threads && s.threads[t].pc.Inserting?
    requires s.threads[t].pc.counts.received < |s.threads[t].pc.answer|
  {
    var Inserting(job, hi, answer, counts) := s.threads[t].pc;
    var record := answer[counts.received];
    var more := if Inserts(s.rows, record) then counts.(imported := counts.imported + 1)
                else counts.(duplicates := counts.duplicates + 1);
    Move(s.(rows := Insert(s.rows, record)), t, Inserting(job, hi, answer, more.(received := counts.received + 1)))
  }

  /** After the commit of a chunk. */
  function ChunkCommitted(s: State, t: nat): State
    requires t in s.threads && s.threads[t].pc.Inserting? && s.threads[t].jobId < |s.jobs|
  {
    var j, pc := s.threads[t].jobId, s.threads[t].pc;
    var row := Committed(pc.job, pc.hi, pc.counts).(status := s.jobs[j].status);
    Move(s.(jobs := s.jobs[j := row]), t, Looping(row))
  }

  /** The next step of a worker; `fault` is a failure of the device or the store in that step. */
  function WorkerStep(log: seq<Entry>, s: State, t: nat, fault: Fault): State
    requires t in s.threads && s.threads[t].jobId < |s.jobs|
  {
    var j := s.threads[t].jobId;
    match s.threads[t].pc
    case Starting =>
      var s' := Mark(s, j, Running, fault);
      if fault.Fine? then Move(s', t, Looping(s'.jobs[j])) else Drop(s', t)
    case Looping(job) =>
      if job.cursor > job.end || s.cancel then
        var s' := Mark(s, j, if job.cursor > job.end then Complete else Paused, fault);
        Move(s', t, if fault.Fine? then Finishing else Failing)
      else if !fault.Fine? || !Answers(log, job) then Move(s, t, Failing)
      else Move(s, t, Inserting(job, ChunkEnd(job), Answer(log, job.cursor, ChunkEnd(job)), Counts(0, 0, 0)))
    case Inserting(job, hi, answer, counts) =>
      if fault.Before? || (counts.received < |answer| && Raises(answer[counts.received])) then Move(s, t, Failing)
      else
        var s' := if counts.received < |answer| then Inserted(s, t) else ChunkCommitted(s, t);
        if fault.Fine? then s' else Move(s', t, Failing)
    case Failing => Move(Mark(s, j, Paused, fault), t, Finishing)
    case Finishing => Move(s.(active := None), t, Leaving)
    case Leaving => Drop(s, t)
  }

  /** One atomic step; an action that is not possible changes nothing. */
  function Do(log: seq<Entry>, s: State, a: Action): State {
    match a
    case Create(start, end, chunkSeconds, maxRecords, fault) =>
      if !ValidRequest(start, end, chunkSeconds, maxRecords) || fault.Before? then s
      else s.(jobs := s.jobs + [NewJob(start, end, chunkSeconds, maxRecords)])
    case Lookup(c, j) =>
      if j >= |s.jobs| || s.jobs[j].status.Complete? then s else s.(clients := s.clients[c := LookedUp(j)])
    case StartThread(c, fault) =>
      if c !in s.clients || !s.clients[c].LookedUp? || s.clients[c].jobId >= |s.jobs| then s
      else
        var j, s' := s.clients[c].jobId, s.(clients := s.clients - {c});
        if s.thread.Some? && s.thread.value in s.threads then s'
        else
          var marked := Mark(s', j, Queued, fault).(cancel := false, active := Some(j));
          if !fault.Fine? then marked
          else marked.(thread := Some(s.nextThread), threads := s.threads[s.nextThread := Thread(j, Starting)],
                       nextThread := s.nextThread + 1)
    case CancelCheck(c, j) =>
      if s.active != Some(j) then s else s.(clients := s.clients[c := Checked(j)])
    case CancelSet(c) =>
      if c !in s.clients || !s.clients[c].Checked? then s
      else s.(cancel := true, clients := s.clients[c := Flagged(s.clients[c].jobId)])
    case CancelMark(c, fault) =>
      if c !in s.clients || !s.clients[c].Flagged? then s
      else
        var j, s' := s.clients[c].jobId, s.(clients := s.clients - {c});
        if j >= |s.jobs| then s' else Mark(s', j, Cancelling, fault)
    case Stop => s.(cancel := true)
    case Work(t, fault) =>
      if t !in s.threads || s.threads[t].jobId >= |s.jobs| then s else WorkerStep(log, s, t, fault)
  }

  function RunAll(log: seq<Entry>, s: State, actions: seq<Action>): State
    decreases |actions|
  {
    if actions == [] then s else RunAll(log, Do(log, s, actions[0]), actions[1..])
  }

  // ---------------------------------------------------------------- what every step keeps

  /** The manager remembers every live thread, so there is at most one. */
  predicate OneThread(s: State) {
    && (forall t :: t in s.threads ==> s.thread == Some(t) && s.threads[t].jobId < |s.jobs|)
    && (s.thread.Some? ==> s.thread.value < s.nextThread)
  }

  /** Chunks tile the range from its start: the cursor is where so many chunks end. */
  predicate Tiled(job: Job) {
    && job.start <= job.end && 300 <= job.chunkSeconds
    && job.cursor == Min(job.start + job.chunks * job.chunkSeconds, job.end + 1)
    && (job.chunks > 0 ==> job.start + (job.chunks - 1) * job.chunkSeconds <= job.end)
  }

  predicate JobOk(job: Job) {
    && Tiled(job)
    && job.received == job.imported + job.duplicates
    && (job.status.Complete? ==> job.cursor == job.end + 1)
  }

  /** Chunk `i` of a job is in the device's range and within the record limit. */
  predicate ChunkFits(log: seq<Entry>, job: Job, i: nat) {
    var lo := job.start + i * job.chunkSeconds;
    var hi := Min(lo + job.chunkSeconds - 1, job.end);
    0 <= lo <= hi <= 0xFFFFFFFF && |Answer(log, lo, hi)| <= job.maxRecords
  }

  predicate Known(rows: Rows, r: Record) {
    KeyOf(r).Some? ==> KeyOf(r).value in rows
  }

  /** A worker's copy of its job is the stored row, and the records it has passed are stored. */
  predicate ThreadOk(log: seq<Entry>, s: State, th: Thread)
    requires th.jobId < |s.jobs|
  {
    match th.pc
    case Looping(job) => SameProgress(job, s.jobs[th.jobId])
    case Inserting(job, hi, answer, counts) =>
      && SameProgress(job, s.jobs[th.jobId]) && Answers(log, job)
      && job.cursor <= job.end && hi == ChunkEnd(job) && answer == Answer(log, job.cursor, hi)
      && counts.received <= |answer| && counts.received == counts.imported + counts.duplicates
      && (forall i :: 0 <= i < counts.received ==> Known(s.rows, answer[i]) && !Raises(answer[i]))
    case _ => true
  }

  function Records(log: seq<Entry>): seq<Record> {
    if log == [] then [] else [log[0].record] + Records(log[1..])
  }

  /** Every row was there before, or is the row of the first logged record with its key. */
  ghost predicate FromLog(log: seq<Entry>, rows0: Rows, rows: Rows) {
    && (forall k :: k in rows0 ==> k in rows && rows[k] == rows0[k])
    && (forall k :: k in rows && k !in rows0 ==>
          var first := FirstWith(Records(log), k);
          first.Some? && KeyOf(first.value) == Some(k) && rows[k] == RowOf(first.value))
  }

  predicate InRange(job: Job, epoch: int) {
    job.start <= epoch <= job.end
  }

  /** Every new row lies in the range of some job. */
  ghost predicate Asked(rows0: Rows, s: State) {
    forall k :: k in s.rows && k !in rows0 ==> exists j :: 0 <= j < |s.jobs| && InRange(s.jobs[j], k.timestamp)
  }

  /** Everything logged before a job's cursor is stored, nothing of it raises, the chunks up to there
      fit, and the job has counted each of those records once. */
  predicate Covered(log: seq<Entry>, rows: Rows, job: Job) {
    && (forall i :: 0 <= i < |log| && job.start <= log[i].epoch < job.cursor ==>
          Known(rows, log[i].record) && !Raises(log[i].record))
    && (forall i :: 0 <= i < job.chunks ==> ChunkFits(log, job, i))
    && job.received == |Answer(log, job.start, job.cursor - 1)|
  }

  /** What holds of the rows of a device that dates its records. */
  ghost predicate RowsOk(log: seq<Entry>, rows0: Rows, s: State) {
    LogDated(log) ==> FromLog(log, rows0, s.rows) && Asked(rows0, s)
  }

  function Imported(jobs: seq<Job>): nat {
    if jobs == [] then 0 else Imported(jobs[..|jobs| - 1]) + jobs[|jobs| - 1].imported
  }

  /** Rows inserted by the running chunk, not yet counted in a job. */
  function InFlight(s: State): nat {
    if s.thread.Some? && s.thread.value in s.threads && s.threads[s.thread.value].pc.Inserting?
    then s.threads[s.thread.value].pc.counts.imported else 0
  }

  ghost predicate JobsOk(log: seq<Entry>, s: State) {
    forall j :: 0 <= j < |s.jobs| ==> JobOk(s.jobs[j]) && Covered(log, s.rows, s.jobs[j])
  }

  ghost predicate ThreadsOk(log: seq<Entry>, s: State) {
    forall t :: t in s.threads ==> s.threads[t].jobId < |s.jobs| && ThreadOk(log, s, s.threads[t])
  }

  ghost predicate Counted(rows0: Rows, s: State) {
    Imported(s.jobs) + InFlight(s) + |rows0| <= |s.rows|
  }

  ghost predicate Inv(log: seq<Entry>, rows0: Rows, s: State) {
    && OneThread(s) && JobsOk(log, s) && ThreadsOk(log, s)
    && RowsOk(log, rows0, s) && Counted(rows0, s)
  }

  // ---------------------------------------------------------------- facts about answers

  lemma {:induction false} AnswerFirst(log: seq<Entry>, lo: int, hi: int, key: RowKey)
    requires LogDated(log) && lo <= key.timestamp <= hi
    ensures FirstWith(Answer(log, lo, hi), key) == FirstWith(Records(log), key)
    decreases |log|
  {
    hide KeyOf;
    if log != [] {
      assert LogDated(log[1..]) by {
        forall i | 0 <= i < |log[1..]| && KeyOf(log[1..][i].record).Some?
          ensures KeyOf(log[1..][i].record).value.timestamp == log[1..][i].epoch
        {
          assert log[1..][i] == log[i + 1];
        }
      }
      AnswerFirst(log[1..], lo, hi, key);
      var rest := Answer(log[1..], lo, hi);
      assert ([log[0].record] + rest)[1..] == rest && [] + rest == rest;
      assert ([log[0].record] + Records(log[1..]))[1..] == Records(log[1..]);
    }
  }

  lemma {:induction false} AnswerSplits(log: seq<Entry>, lo: int, mid: int, hi: int)
    requires lo <= mid <= hi + 1
    ensures |Answer(log, lo, mid - 1)| + |Answer(log, mid, hi)| == |Answer(log, lo, hi)|
    decreases |log|
  {
    if log != [] { AnswerSplits(log[1..], lo, mid, hi); }
  }

  lemma {:induction false} NothingAnswered(log: seq<Entry>, lo: int, hi: int)
    requires hi < lo
    ensures Answer(log, lo, hi) == []
    decreases |log|
  {
    if log != [] { NothingAnswered(log[1..], lo, hi); }
  }

  /** An answered record was logged in the range. */
  lemma {:induction false} AnswerLogged(log: seq<Entry>, lo: int, hi: int, m: nat) returns (i: nat)
    requires m < |Answer(log, lo, hi)|
    ensures i < |log| && log[i].record == Answer(log, lo, hi)[m] && lo <= log[i].epoch <= hi
    decreases |log|
  {
    var own := if lo <= log[0].epoch <= hi then 1 else 0;
    if m < own {
      i := 0;
    } else {
      i := AnswerLogged(log[1..], lo, hi, m - own);
      i := i + 1;
    }
  }

  /** A record logged in the range is answered. */
  lemma {:induction false} LoggedAnswered(log: seq<Entry>, lo: int, hi: int, i: nat) returns (m: nat)
    requires i < |log| && lo <= log[i].epoch <= hi
    ensures m < |Answer(log, lo, hi)| && Answer(log, lo, hi)[m] == log[i].record
    decreases |log|
  {
    if i == 0 {
      m := 0;
    } else {
      m := LoggedAnswered(log[1..], lo, hi, i - 1);
      m := m + if lo <= log[0].epoch <= hi then 1 else 0;
    }
  }

  lemma {:induction false} FirstAt(records: seq<Record>, key: RowKey, i: nat)
    requires i < |records| && KeyOf(records[i]) == Some(key)
    requires forall m :: 0 <= m < i ==> KeyOf(records[m]) != Some(key)
    ensures FirstWith(records, key) == Some(records[i])
    decreases i
  {
    hide KeyOf;
    if i > 0 {
      forall m | 0 <= m < i - 1 ensures KeyOf(records[1..][m]) != Some(key) {
        assert records[1..][m] == records[m + 1];
      }
      FirstAt(records[1..], key, i - 1);
    }
  }

  // ---------------------------------------------------------------- sums over jobs

  lemma {:induction false} ImportedUpdate(jobs: seq<Job>, j: nat, job: Job)
    requires j < |jobs|
    ensures Imported(jobs[j := job]) + jobs[j].imported == Imported(jobs) + job.imported
    decreases |jobs|
  {
    var n := |jobs| - 1;
    if j < n {
      ImportedUpdate(jobs[..n], j, job);
      assert jobs[j := job][..n] == jobs[..n][j := job];
    } else {
      assert jobs[j := job][..n] == jobs[..n];
    }
  }

  lemma ImportedAppend(jobs: seq<Job>, job: Job)
    ensures Imported(jobs + [job]) == Imported(jobs) + job.imported
  {
    assert (jobs + [job])[..|jobs|] == jobs;
  }

  // ---------------------------------------------------------------- steps that only move

  /** Whether a chunk fits does not depend on progress. */
  lemma FitsSame(log: seq<Entry>, a: Job, b: Job)
    requires a.start == b.start && a.end == b.end && a.chunkSeconds == b.chunkSeconds && a.maxRecords == b.maxRecords
    ensures forall i: nat :: ChunkFits(log, a, i) == ChunkFits(log, b, i)
  {
  }

  lemma CoveredSame(log: seq<Entry>, rows: Rows, a: Job, b: Job)
    requires SameProgress(a, b) && Covered(log, rows, a)
    ensures Covered(log, rows, b)
  {
    hide Known, Raises;
    FitsSame(log, a, b);
    hide ChunkFits;
  }

  lemma AskedLater(rows0: Rows, s: State, s': State)
    requires Asked(rows0, s) && s'.rows == s.rows && |s.jobs| <= |s'.jobs|
    requires forall j :: 0 <= j < |s.jobs| ==> s'.jobs[j].start == s.jobs[j].start && s'.jobs[j].end == s.jobs[j].end
    ensures Asked(rows0, s')
  {
    forall k | k in s'.rows && k !in rows0
      ensures exists j :: 0 <= j < |s'.jobs| && InRange(s'.jobs[j], k.timestamp)
    {
      var j :| 0 <= j < |s.jobs| && InRange(s.jobs[j], k.timestamp);
      assert InRange(s'.jobs[j], k.timestamp);
    }
  }

  lemma RowsLater(log: seq<Entry>, rows0: Rows, s: State, s': State)
    requires RowsOk(log, rows0, s) && s'.rows == s.rows && |s.jobs| <= |s'.jobs|
    requires forall j :: 0 <= j < |s.jobs| ==> s'.jobs[j].start == s.jobs[j].start && s'.jobs[j].end == s.jobs[j].end
    ensures RowsOk(log, rows0, s')
  {
    hide FromLog, LogDated, Asked;
    if LogDated(log) { AskedLater(rows0, s, s'); }
  }

  lemma {:induction false} SameImported(a: seq<Job>, b: seq<Job>)
    requires |a| == |b| && forall j :: 0 <= j < |a| ==> SameProgress(a[j], b[j])
    ensures Imported(a) == Imported(b)
    decreases |a|
  {
    if a != [] { SameImported(a[..|a| - 1], b[..|b| - 1]); }
  }

  /** A change of statuses, of the clients, of the flags, or of a thread to a point where nothing
      is in flight. */
  lemma MoveKeeps(log: seq<Entry>, rows0: Rows, s: State, s': State)
    requires Inv(log, rows0, s)
    requires s'.rows == s.rows && |s'.jobs| == |s.jobs|
    requires forall j :: 0 <= j < |s.jobs| ==> SameProgress(s.jobs[j], s'.jobs[j])
    requires forall j :: 0 <= j < |s.jobs| && s'.jobs[j].status.Complete? ==> s'.jobs[j].cursor == s'.jobs[j].end + 1
    requires OneThread(s') && ThreadsOk(log, s') && InFlight(s') <= InFlight(s)
    ensures Inv(log, rows0, s')
  {
    hide Known, Raises, KeyOf, RowsOk, InFlight, ThreadOk, Covered;
    SameImported(s.jobs, s'.jobs);
    forall j | 0 <= j < |s'.jobs| ensures Covered(log, s'.rows, s'.jobs[j]) {
      CoveredSame(log, s.rows, s.jobs[j], s'.jobs[j]);
    }
    RowsLater(log, rows0, s, s');
  }

  // ---------------------------------------------------------------- the insert step

  /** A record that is inserted is the first logged one with its key. */
  lemma InsertedIsFirst(log: seq<Entry>, rows: Rows, lo: int, hi: int, i: nat)
    requires LogDated(log) && i < |Answer(log, lo, hi)|
    requires forall m :: 0 <= m < i ==> Known(rows, Answer(log, lo, hi)[m])
    requires Inserts(rows, Answer(log, lo, hi)[i])
    ensures var record := Answer(log, lo, hi)[i]; var key := KeyOf(record).value;
            lo <= key.timestamp <= hi && FirstWith(Records(log), key) == Some(record)
  {
    var answer := Answer(log, lo, hi);
    var key := KeyOf(answer[i]).value;
    var at := AnswerLogged(log, lo, hi, i);
    hide KeyOf, Answer, Records, FirstWith;
    AnswerFirst(log, lo, hi, key);
    forall m | 0 <= m < i ensures KeyOf(answer[m]) != Some(key) { assert Known(rows, answer[m]); }
    FirstAt(answer, key, i);
  }

  lemma InsertKeepsFromLog(log: seq<Entry>, rows0: Rows, rows: Rows, r: Record)
    requires FromLog(log, rows0, rows)
    requires Inserts(rows, r) ==> FirstWith(Records(log), KeyOf(r).value) == Some(r)
    ensures FromLog(log, rows0, Insert(rows, r))
  {
    hide KeyOf, RowOf, Records, FirstWith;
  }

  lemma InsertAdds(rows: Rows, r: Record)
    ensures |Insert(rows, r)| == |rows| + if Inserts(rows, r) then 1 else 0
    ensures rows.Keys <= Insert(rows, r).Keys && Known(Insert(rows, r), r)
  {
    hide KeyOf, RowOf;
    if Inserts(rows, r) { assert Insert(rows, r).Keys == rows.Keys + {KeyOf(r).value}; }
  }

  lemma KnownLater(rows: Rows, later: Rows, r: Record)
    requires Known(rows, r) && rows.Keys <= later.Keys
    ensures Known(later, r)
  {
  }

  lemma CoveredLater(log: seq<Entry>, rows: Rows, later: Rows, job: Job)
    requires Covered(log, rows, job) && rows.Keys <= later.Keys
    ensures Covered(log, later, job)
  {
    hide Raises, ChunkFits;
    forall i | 0 <= i < |log| && job.start <= log[i].epoch < job.cursor
      ensures Known(later, log[i].record) && !Raises(log[i].record)
    {
      KnownLater(rows, later, log[i].record);
    }
  }

  lemma AskedInsert(rows0: Rows, s: State, s': State, r: Record, job: Job, lo: int, hi: int)
    requires Asked(rows0, s) && s'.rows == Insert(s.rows, r) && s'.jobs == s.jobs && job in s.jobs
    requires Inserts(s.rows, r) ==> lo <= KeyOf(r).value.timestamp <= hi
    requires job.start <= lo && hi <= job.end
    ensures Asked(rows0, s')
  {
    hide KeyOf, RowOf;
    forall k | k in s'.rows && k !in rows0
      ensures exists j :: 0 <= j < |s'.jobs| && InRange(s'.jobs[j], k.timestamp)
    {
      if k in s.rows {
        var j :| 0 <= j < |s.jobs| && InRange(s.jobs[j], k.timestamp);
      } else {
        var j :| 0 <= j < |s.jobs| && s.jobs[j] == job;
        assert InRange(s'.jobs[j], k.timestamp);
      }
    }
  }

  lemma InsertKeepsJobs(log: seq<Entry>, s: State, s': State)
    requires JobsOk(log, s) && s'.jobs == s.jobs && s.rows.Keys <= s'.rows.Keys
    ensures JobsOk(log, s')
  {
    hide Covered, JobOk;
    forall j | 0 <= j < |s'.jobs| ensures JobOk(s'.jobs[j]) && Covered(log, s'.rows, s'.jobs[j]) {
      CoveredLater(log, s.rows, s'.rows, s.jobs[j]);
    }
  }

  lemma InsertKeepsThreads(log: seq<Entry>, s: State, t: nat)
    requires OneThread(s) && ThreadsOk(log, s) && t in s.threads && s.threads[t].pc.Inserting?
    requires var pc := s.threads[t].pc;
             pc.counts.received < |pc.answer| && !Raises(pc.answer[pc.counts.received])
    requires s.rows.Keys <= Inserted(s, t).rows.Keys
    requires Known(Inserted(s, t).rows, s.threads[t].pc.answer[s.threads[t].pc.counts.received])
    ensures OneThread(Inserted(s, t)) && ThreadsOk(log, Inserted(s, t))
  {
    var Inserting(job, hi, answer, counts) := s.threads[t].pc;
    var s' := Inserted(s, t);
    assert ThreadOk(log, s, s.threads[t]);
    hide Raises, Answer, Insert, Inserts, Known, Answers;
    forall i | 0 <= i < counts.received + 1 ensures Known(s'.rows, answer[i]) && !Raises(answer[i]) {
      if i < counts.received { KnownLater(s.rows, s'.rows, answer[i]); }
    }
  }

  lemma InsertKeepsCount(rows0: Rows, s: State, t: nat)
    requires OneThread(s) && Counted(rows0, s) && t in s.threads && s.threads[t].pc.Inserting?
    requires s.threads[t].pc.counts.received < |s.threads[t].pc.answer|
    requires var record := s.threads[t].pc.answer[s.threads[t].pc.counts.received];
             |Inserted(s, t).rows| == |s.rows| + if Inserts(s.rows, record) then 1 else 0
    ensures Counted(rows0, Inserted(s, t))
  {
    hide Insert, Inserts;
  }

  lemma InsertKeepsRows(log: seq<Entry>, rows0: Rows, s: State, s': State, job: Job, hi: int, i: nat, stored: Job)
    requires RowsOk(log, rows0, s) && i < |Answer(log, job.cursor, hi)| && stored in s.jobs
    requires forall m :: 0 <= m < i ==> Known(s.rows, Answer(log, job.cursor, hi)[m])
    requires s'.rows == Insert(s.rows, Answer(log, job.cursor, hi)[i]) && s'.jobs == s.jobs
    requires stored.start <= job.cursor && hi <= stored.end
    ensures RowsOk(log, rows0, s')
  {
    var record := Answer(log, job.cursor, hi)[i];
    hide FromLog, Asked, LogDated, Answer, Insert, Inserts, KeyOf, Known, FirstWith, Records;
    if LogDated(log) {
      if Inserts(s.rows, record) { InsertedIsFirst(log, s.rows, job.cursor, hi, i); }
      InsertKeepsFromLog(log, rows0, s.rows, record);
      AskedInsert(rows0, s, s', record, stored, job.cursor, hi);
    }
  }

  /** What the invariant says of a worker inside a chunk. */
  lemma InsideChunk(log: seq<Entry>, rows0: Rows, s: State, t: nat)
    requires Inv(log, rows0, s) && t in s.threads && s.threads[t].pc.Inserting?
    ensures OneThread(s) && JobsOk(log, s) && ThreadsOk(log, s) && RowsOk(log, rows0, s) && Counted(rows0, s)
    ensures s.threads[t].jobId < |s.jobs|
    ensures var pc, stored := s.threads[t].pc, s.jobs[s.threads[t].jobId];
            && stored.start <= pc.job.cursor && pc.hi <= stored.end && pc.answer == Answer(log, pc.job.cursor, pc.hi)
            && pc.counts.received <= |pc.answer|
            && forall m :: 0 <= m < pc.counts.received ==> Known(s.rows, pc.answer[m])
  {
    hide Answer, Answers, Known, Raises, RowsOk, Counted, Covered, InFlight;
    assert ThreadOk(log, s, s.threads[t]) && JobOk(s.jobs[s.threads[t].jobId]);
    hide JobsOk, ThreadsOk, OneThread;
  }

  lemma InsertKeeps(log: seq<Entry>, rows0: Rows, s: State, t: nat)
    requires Inv(log, rows0, s) && t in s.threads && s.threads[t].pc.Inserting?
    requires var pc := s.threads[t].pc;
             pc.counts.received < |pc.answer| && !Raises(pc.answer[pc.counts.received])
    ensures Inv(log, rows0, Inserted(s, t))
  {
    var pc, s' := s.threads[t].pc, Inserted(s, t);
    var record, stored := pc.answer[pc.counts.received], s.jobs[s.threads[t].jobId];
    assert s'.jobs == s.jobs && s'.rows == Insert(s.rows, record) by { hide Insert, Inserts; }
    InsideChunk(log, rows0, s, t);
    hide OneThread, JobsOk, ThreadsOk, RowsOk, Counted, Insert, Inserts, Inserted, Known, Raises, Answer;
    InsertAdds(s.rows, record);
    InsertKeepsJobs(log, s, s');
    InsertKeepsThreads(log, s, t);
    InsertKeepsCount(rows0, s, t);
    InsertKeepsRows(log, rows0, s, s', pc.job, pc.hi, pc.counts.received, stored);
  }

  // ---------------------------------------------------------------- the commit step

  lemma CommitTiles(job: Job)
    requires Tiled(job) && job.cursor <= job.end
    ensures Tiled(Committed(job, ChunkEnd(job), Counts(0, 0, 0)))
    ensures job.cursor <= ChunkEnd(job) <= job.end
  {
    var n, c := job.chunks, job.chunkSeconds;
    assert (n + 1) * c == n * c + c;
  }

  lemma CommitCovers(log: seq<Entry>, rows: Rows, job: Job, hi: int, answer: seq<Record>)
    requires Covered(log, rows, job) && answer == Answer(log, job.cursor, hi) && hi == ChunkEnd(job)
    requires Answers(log, job) && Tiled(job) && job.cursor <= job.end
    requires forall i :: 0 <= i < |answer| ==> Known(rows, answer[i]) && !Raises(answer[i])
    ensures var received := job.received + |answer|;
            Covered(log, rows, job.(cursor := hi + 1, chunks := job.chunks + 1, received := received))
  {
    var next := job.(cursor := hi + 1, chunks := job.chunks + 1, received := job.received + |answer|);
    AnswerSplits(log, job.start, job.cursor, hi);
    hide Known, Raises, Answer;
    assert ChunkFits(log, job, job.chunks);
    FitsSame(log, job, next);
    hide ChunkFits, Answers, Tiled;
    forall i | 0 <= i < |log| && job.start <= log[i].epoch < hi + 1
      ensures Known(rows, log[i].record) && !Raises(log[i].record)
    {
      if job.cursor <= log[i].epoch {
        var m := LoggedAnswered(log, job.cursor, hi, i);
      }
    }
  }

  lemma CommittedOk(log: seq<Entry>, rows: Rows, job: Job, answer: seq<Record>, counts: Counts)
    requires JobOk(job) && Covered(log, rows, job) && answer == Answer(log, job.cursor, ChunkEnd(job))
    requires Answers(log, job) && job.cursor <= job.end && counts.received == counts.imported + counts.duplicates
    requires counts.received == |answer|
    requires forall i :: 0 <= i < |answer| ==> Known(rows, answer[i]) && !Raises(answer[i])
    ensures JobOk(Committed(job, ChunkEnd(job), counts)) && Covered(log, rows, Committed(job, ChunkEnd(job), counts))
  {
    CommitTiles(job);
    CommitCovers(log, rows, job, ChunkEnd(job), answer);
    var next := job.(cursor := ChunkEnd(job) + 1, chunks := job.chunks + 1, received := job.received + |answer|);
    var done := Committed(job, ChunkEnd(job), counts);
    FitsSame(log, next, done);
    hide Known, Raises, Answer, ChunkFits, Answers;
  }

  lemma CommitKeeps(log: seq<Entry>, rows0: Rows, s: State, t: nat)
    requires Inv(log, rows0, s) && t in s.threads && s.threads[t].pc.Inserting?
    requires s.threads[t].pc.counts.received == |s.threads[t].pc.answer|
    ensures Inv(log, rows0, ChunkCommitted(s, t))
  {
    var Inserting(job, hi, answer, counts) := s.threads[t].pc;
    var j, s' := s.threads[t].jobId, ChunkCommitted(s, t);
    assert ThreadOk(log, s, s.threads[t]) && JobOk(s.jobs[j]) && Covered(log, s.rows, s.jobs[j]);
    hide Covered, RowsOk, Answer, Answers, Known, Raises, KeyOf, Tiled;
    CommittedOk(log, s.rows, s.jobs[j], answer, counts);
    ImportedUpdate(s.jobs, j, s'.jobs[j]);
    assert s'.jobs[j] == Committed(s.jobs[j], hi, counts);
    hide JobOk;
    RowsLater(log, rows0, s, s');
    hide RowsOk;
    assert ThreadsOk(log, s');
  }

  // ---------------------------------------------------------------- every step

  /** Thread `t` ends, or goes on from a point where it has nothing in flight; its job may change
      its status. */
  lemma GoOn(log: seq<Entry>, rows0: Rows, s: State, s': State, t: nat)
    requires Inv(log, rows0, s) && t in s.threads
    requires s'.rows == s.rows && |s'.jobs| == |s.jobs| && s'.thread == s.thread && s'.nextThread == s.nextThread
    requires forall j :: 0 <= j < |s.jobs| ==> SameProgress(s.jobs[j], s'.jobs[j])
    requires forall j :: 0 <= j < |s.jobs| && s'.jobs[j].status.Complete? ==> s'.jobs[j].cursor == s'.jobs[j].end + 1
    requires s'.threads.Keys <= s.threads.Keys
    requires t in s'.threads ==> s'.threads[t].jobId < |s.jobs| && ThreadOk(log, s', s'.threads[t])
    requires t in s'.threads && s'.threads[t].pc.Inserting? ==> s'.threads[t].pc.counts.imported == 0
    ensures Inv(log, rows0, s')
  {
    assert s.thread == Some(t) && forall u :: u in s'.threads ==> u in s.threads && u == t;
    hide ThreadOk, RowsOk, Covered, JobOk, SameProgress, JobsOk;
    MoveKeeps(log, rows0, s, s');
  }

  /** A worker writes a status and goes on from a point with nothing in flight. */
  lemma StatusStepKeeps(log: seq<Entry>, rows0: Rows, s: State, t: nat, status: Status, pc: Pc)
    requires Inv(log, rows0, s) && t in s.threads && s.threads[t].jobId < |s.jobs|
    requires pc.Finishing? || (pc.Looping? && pc.job == s.jobs[s.threads[t].jobId].(status := status))
    requires status.Complete? ==> s.jobs[s.threads[t].jobId].cursor > s.jobs[s.threads[t].jobId].end
    ensures Inv(log, rows0, Move(SetStatus(s, s.threads[t].jobId, status), t, pc))
  {
    var j, s' := s.threads[t].jobId, Move(SetStatus(s, s.threads[t].jobId, status), t, pc);
    assert s'.threads == s.threads[t := Thread(j, pc)] && s'.jobs == s.jobs[j := s.jobs[j].(status := status)];
    assert s'.rows == s.rows && s'.thread == s.thread && s'.nextThread == s.nextThread;
    hide Move, SetStatus;
    assert JobOk(s.jobs[j]);
    assert forall i :: 0 <= i < |s.jobs| && s.jobs[i].status.Complete? ==> s.jobs[i].cursor == s.jobs[i].end + 1;
    assert status.Complete? ==> s.jobs[j].cursor == s.jobs[j].end + 1;
    hide JobOk, Tiled, InFlight, Imported, Answers;
    hide Inv, RowsOk, Covered, Known, Raises, KeyOf, Answer, OneThread, Counted, ThreadsOk, JobsOk;
    GoOn(log, rows0, s, s', t);
  }

  /** A worker goes on without a status, or ends. */
  lemma SilentStepKeeps(log: seq<Entry>, rows0: Rows, s: State, s': State, t: nat)
    requires Inv(log, rows0, s) && t in s.threads && s.threads[t].jobId < |s.jobs|
    requires s'.rows == s.rows && s'.jobs == s.jobs && s'.thread == s.thread && s'.nextThread == s.nextThread
    requires s'.threads.Keys <= s.threads.Keys
    requires t in s'.threads ==> s'.threads[t].jobId == s.threads[t].jobId
    requires t in s'.threads ==> s'.threads[t].pc.Failing? || s'.threads[t].pc.Finishing? || s'.threads[t].pc.Leaving?
    ensures Inv(log, rows0, s')
  {
    assert forall i :: 0 <= i < |s.jobs| && s.jobs[i].status.Complete? ==> s.jobs[i].cursor == s.jobs[i].end + 1 by {
      assert forall i :: 0 <= i < |s.jobs| ==> JobOk(s.jobs[i]);
    }
    hide JobOk, Tiled, InFlight, Imported, Answers;
    hide Inv, RowsOk, Covered, Known, Raises, KeyOf, Answer, OneThread, Counted, ThreadsOk, JobsOk;
    GoOn(log, rows0, s, s', t);
  }

  lemma FetchKeeps(log: seq<Entry>, rows0: Rows, s: State, t: nat, job: Job)
    requires Inv(log, rows0, s) && t in s.threads && s.threads[t] == Thread(s.threads[t].jobId, Looping(job))
    requires s.threads[t].jobId < |s.jobs| && job.cursor <= job.end && Answers(log, job)
    ensures var pc := Inserting(job, ChunkEnd(job), Answer(log, job.cursor, ChunkEnd(job)), Counts(0, 0, 0));
            Inv(log, rows0, Move(s, t, pc))
  {
    assert ThreadOk(log, s, s.threads[t]);
    assert forall i :: 0 <= i < |s.jobs| ==> JobOk(s.jobs[i]);
    hide Inv, RowsOk, Covered, Known, Raises, KeyOf, Answer, OneThread, Counted, ThreadsOk, JobsOk, Tiled;
    var pc := Inserting(job, ChunkEnd(job), Answer(log, job.cursor, ChunkEnd(job)), Counts(0, 0, 0));
    GoOn(log, rows0, s, Move(s, t, pc), t);
  }

  /** A step that works, of a worker with nothing in flight. */
  lemma PlainStepKeeps(log: seq<Entry>, rows0: Rows, s: State, t: nat)
    requires Inv(log, rows0, s) && t in s.threads && s.threads[t].jobId < |s.jobs|
    requires !s.threads[t].pc.Inserting?
    ensures Inv(log, rows0, WorkerStep(log, s, t, Fine))
  {
    var j, pc, s' := s.threads[t].jobId, s.threads[t].pc, WorkerStep(log, s, t, Fine);
    assert ThreadOk(log, s, s.threads[t]);
    hide Inv, Answers, Answer;
    match pc {
      case Starting => StatusStepKeeps(log, rows0, s, t, Running, Looping(s.jobs[j].(status := Running)));
      case Looping(job) =>
        if job.cursor > job.end { StatusStepKeeps(log, rows0, s, t, Complete, Finishing); }
        else if s.cancel { StatusStepKeeps(log, rows0, s, t, Paused, Finishing); }
        else if !Answers(log, job) { SilentStepKeeps(log, rows0, s, s', t); }
        else { FetchKeeps(log, rows0, s, t, job); }
      case Failing => StatusStepKeeps(log, rows0, s, t, Paused, Finishing);
      case Finishing => SilentStepKeeps(log, rows0, s, s', t);
      case Leaving => SilentStepKeeps(log, rows0, s, s', t);
    }
  }

  lemma FineKeeps(log: seq<Entry>, rows0: Rows, s: State, t: nat)
    requires Inv(log, rows0, s) && t in s.threads && s.threads[t].jobId < |s.jobs|
    ensures Inv(log, rows0, WorkerStep(log, s, t, Fine))
  {
    var pc := s.threads[t].pc;
    if !pc.Inserting? {
      hide Inv, WorkerStep;
      PlainStepKeeps(log, rows0, s, t);
    } else {
      assert ThreadOk(log, s, s.threads[t]);
      hide Inv, Known, Raises, KeyOf, Answer, Answers, Inserted, ChunkCommitted;
      if pc.counts.received == |pc.answer| {
        CommitKeeps(log, rows0, s, t);
      } else if !Raises(pc.answer[pc.counts.received]) {
        InsertKeeps(log, rows0, s, t);
      } else {
        SilentStepKeeps(log, rows0, s, WorkerStep(log, s, t, Fine), t);
      }
    }
  }

  /** Worker `t` of `from` is on its way out in `s'`, or gone, and nothing else has changed. */
  predicate SentOut(from: State, s': State, t: nat) {
    && s'.rows == from.rows && s'.jobs == from.jobs && s'.thread == from.thread && s'.nextThread == from.nextThread
    && t in from.threads && from.threads[t].jobId < |from.jobs| && s'.threads.Keys <= from.threads.Keys
    && (t in s'.threads ==>
          && s'.threads[t].jobId == from.threads[t].jobId
          && (s'.threads[t].pc.Failing? || s'.threads[t].pc.Finishing?))
  }

  lemma MovedOut(s: State, t: nat, pc: Pc)
    requires t in s.threads && s.threads[t].jobId < |s.jobs| && (pc.Failing? || pc.Finishing?)
    ensures SentOut(s, Move(s, t, pc), t) && SentOut(s, Drop(s, t), t)
  {
  }

  lemma MovedElsewhere(s: State, t: nat, other: Pc, pc: Pc)
    requires t in s.threads && s.threads[t].jobId < |s.jobs| && (pc.Failing? || pc.Finishing?)
    ensures SentOut(Move(s, t, other), Move(s, t, pc), t) && SentOut(Move(s, t, other), Drop(s, t), t)
  {
  }

  /** A step that fails before its effect sends the worker out. */
  lemma BeforeSendsOut(log: seq<Entry>, s: State, t: nat)
    requires t in s.threads && s.threads[t].jobId < |s.jobs|
    ensures var s' := WorkerStep(log, s, t, Before); s' == WorkerStep(log, s, t, Fine) || SentOut(s, s', t)
  {
    MovedOut(s, t, Failing);
    MovedOut(s, t, Finishing);
    hide Inserted, ChunkCommitted, Raises, Answer, Answers, SentOut, Move, Drop, SetStatus;
  }

  /** One that fails after it sends the worker out from there. */
  lemma AfterSendsOut(log: seq<Entry>, s: State, t: nat)
    requires t in s.threads && s.threads[t].jobId < |s.jobs|
    ensures var s', fine := WorkerStep(log, s, t, After), WorkerStep(log, s, t, Fine);
            s' == fine || SentOut(fine, s', t)
  {
    var fine, j := WorkerStep(log, s, t, Fine), s.threads[t].jobId;
    match s.threads[t].pc {
      case Starting =>
        var m := Mark(s, j, Running, Fine);
        hide SentOut, Move, Drop;
        MovedElsewhere(m, t, Looping(m.jobs[j]), Failing);
      case Looping(job) =>
        var ends := job.cursor > job.end || s.cancel;
        var m := if ends then Mark(s, j, if job.cursor > job.end then Complete else Paused, Fine) else s;
        hide SentOut, Move, Drop, Answer, Answers, SetStatus;
        MovedElsewhere(m, t, Finishing, Failing);
        var answer := Answer(log, job.cursor, ChunkEnd(job));
        MovedElsewhere(s, t, Inserting(job, ChunkEnd(job), answer, Counts(0, 0, 0)), Failing);
      case Inserting(_, _, _, _) =>
        assert t in fine.threads && fine.threads[t].jobId < |fine.jobs| by { hide Insert, Inserts, Raises; }
        MovedOut(fine, t, Failing);
        hide Raises, Inserted, ChunkCommitted, SentOut, Move;
      case _ =>
    }
  }

  lemma WorkerKeeps(log: seq<Entry>, rows0: Rows, s: State, t: nat, fault: Fault)
    requires Inv(log, rows0, s) && t in s.threads && s.threads[t].jobId < |s.jobs|
    ensures Inv(log, rows0, WorkerStep(log, s, t, fault))
  {
    hide Inv, WorkerStep;
    FineKeeps(log, rows0, s, t);
    var s', fine := WorkerStep(log, s, t, fault), WorkerStep(log, s, t, Fine);
    if s' != fine {
      if fault.Before? { BeforeSendsOut(log, s, t); } else { AfterSendsOut(log, s, t); }
      SilentStepKeeps(log, rows0, if fault.Before? then s else fine, s', t);
    }
  }

  lemma NewJobOk(log: seq<Entry>, rows: Rows, job: Job)
    requires job.start <= job.end && 300 <= job.chunkSeconds
    requires job == NewJob(job.start, job.end, job.chunkSeconds, job.maxRecords)
    ensures JobOk(job) && Covered(log, rows, job)
  {
    NothingAnswered(log, job.start, job.cursor - 1);
    hide Known, Raises, Answer;
  }

  lemma CreateKeeps(log: seq<Entry>, rows0: Rows, s: State, s': State, job: Job)
    requires Inv(log, rows0, s) && s'.rows == s.rows && s'.jobs == s.jobs + [job]
    requires s'.threads == s.threads && s'.thread == s.thread && s'.nextThread == s.nextThread
    requires job.start <= job.end && 300 <= job.chunkSeconds
    requires job == NewJob(job.start, job.end, job.chunkSeconds, job.maxRecords)
    ensures Inv(log, rows0, s')
  {
    ImportedAppend(s.jobs, job);
    NewJobOk(log, s.rows, job);
    hide NewJob;
    assert JobsOk(log, s') && ThreadsOk(log, s') by { hide Known, Raises, Answer, JobOk, Covered; }
    hide JobsOk, ThreadsOk;
    hide RowsOk, Known, Raises, KeyOf, Answer, JobOk, Covered, Imported;
    RowsLater(log, rows0, s, s');
  }

  lemma StartKeeps(log: seq<Entry>, rows0: Rows, s: State, c: nat, fault: Fault)
    requires Inv(log, rows0, s)
    ensures Inv(log, rows0, Do(log, s, StartThread(c, fault)))
  {
    var s' := Do(log, s, StartThread(c, fault));
    hide RowsOk, Covered, Known, Raises, KeyOf, Answer, Counted, Tiled, WorkerStep;
    assert OneThread(s') && ThreadsOk(log, s');
    MoveKeeps(log, rows0, s, s');
  }

  /** Flags and clients are no part of the invariant. */
  lemma FlagsKeep(log: seq<Entry>, rows0: Rows, s: State, cancel: bool, clients: map<nat, Client>)
    requires Inv(log, rows0, s)
    ensures Inv(log, rows0, s.(cancel := cancel, clients := clients))
  {
    hide LogDated, FromLog, Covered, Known, Raises, KeyOf, Answer;
  }

  lemma StatusKeeps(log: seq<Entry>, rows0: Rows, s: State, j: nat, status: Status, fault: Fault)
    requires Inv(log, rows0, s) && j < |s.jobs| && !status.Complete?
    ensures Inv(log, rows0, Mark(s, j, status, fault))
  {
    var s' := Mark(s, j, status, fault);
    hide RowsOk, Covered, Known, Raises, KeyOf, Answer, Answers, Counted, Tiled;
    assert OneThread(s') && ThreadsOk(log, s');
    MoveKeeps(log, rows0, s, s');
  }

  lemma MarkKeeps(log: seq<Entry>, rows0: Rows, s: State, c: nat, fault: Fault)
    requires Inv(log, rows0, s)
    ensures Inv(log, rows0, Do(log, s, CancelMark(c, fault)))
  {
    hide Inv, WorkerStep, Mark;
    FlagsKeep(log, rows0, s, s.cancel, s.clients - {c});
    if c in s.clients && s.clients[c].Flagged? && s.clients[c].jobId < |s.jobs| {
      StatusKeeps(log, rows0, s.(clients := s.clients - {c}), s.clients[c].jobId, Cancelling, fault);
    }
  }

  lemma DoKeeps(log: seq<Entry>, rows0: Rows, s: State, a: Action)
    requires Inv(log, rows0, s)
    ensures Inv(log, rows0, Do(log, s, a))
  {
    hide Inv, WorkerStep;
    var s' := Do(log, s, a);
    match a {
      case Work(t, fault) =>
        if t in s.threads && s.threads[t].jobId < |s.jobs| { WorkerKeeps(log, rows0, s, t, fault); }
      case Create(start, end, chunkSeconds, maxRecords, fault) =>
        if s' != s { CreateKeeps(log, rows0, s, s', NewJob(start, end, chunkSeconds, maxRecords)); }
      case StartThread(c, fault) => StartKeeps(log, rows0, s, c, fault);
      case CancelMark(c, fault) => MarkKeeps(log, rows0, s, c, fault);
      case _ => FlagsKeep(log, rows0, s, s'.cancel, s'.clients);
    }
  }

  lemma {:induction false} RunKeeps(log: seq<Entry>, rows0: Rows, s: State, actions: seq<Action>)
    requires Inv(log, rows0, s)
    ensures Inv(log, rows0, RunAll(log, s, actions))
    decreases |actions|
  {
    if actions != [] {
      DoKeeps(log, rows0, s, actions[0]);
      hide Inv, Do;
      RunKeeps(log, rows0, Do(log, s, actions[0]), actions[1..]);
    }
  }
}
