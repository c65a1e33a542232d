/** The measurement and job tables (tools/monitoring_store.py): measurement rows are unique by
    table, node and timestamp, and the first writer wins. */
module Store {
  import opened Common

  datatype Table = Samples | HealthRows

  datatype RowKey = RowKey(table: Table, nodeId: int, timestamp: int)

  /** The stored columns, as raw numbers. */
  datatype Row = Row(columns: seq<Option<int>>)

  type Rows = map<RowKey, Row>

  datatype Content = Axes(columns: seq<Option<int>>) | HealthData(columns: seq<Option<int>>) | OtherFields

  /** The decoded data of a record: none, a plain number, or named fields. */
  datatype Data =
    | NoData
    | Number(value: int)
    | Fields(timestamp: Option<int>, headerNode: Option<int>, content: Content)

  /** A record carries the node of its own or its inner header, if it has one. */
  datatype Record = Record(headerNode: Option<int>, data: Data)

  /** insert_record looks fields up in the data; a number other than 0 has none and raises. */
  predicate Raises(r: Record) {
    r.data.Number? && r.data.value != 0
  }

  /** The node of the header, or of the data's header when that is missing or 0. */
  function NodeOf(r: Record): int
    requires r.data.Fields?
  {
    var own := if r.headerNode.Some? then r.headerNode.value else 0;
    if own == 0 && r.data.headerNode.Some? then r.data.headerNode.value else own
  }

  /** Where a record is stored, if anywhere: it needs a timestamp, and axes or health fields. */
  function KeyOf(r: Record): Option<RowKey> {
    if !r.data.Fields? || r.data.timestamp.None? then None
    else
      match r.data.content
      case Axes(_) => Some(RowKey(Samples, NodeOf(r), r.data.timestamp.value))
      case HealthData(_) => Some(RowKey(HealthRows, NodeOf(r), r.data.timestamp.value))
      case OtherFields => None
  }

  function RowOf(r: Record): Row
    requires KeyOf(r).Some?
  {
    Row(r.data.content.columns)
  }

  /** INSERT OR IGNORE. */
  function Insert(rows: Rows, r: Record): Rows {
    var key := KeyOf(r);
    if key.None? || key.value in rows then rows else rows[key.value := RowOf(r)]
  }

  predicate Inserts(rows: Rows, r: Record) {
    KeyOf(r).Some? && KeyOf(r).value !in rows
  }

  function InsertAll(rows: Rows, records: seq<Record>): Rows
    decreases |records|
  {
    if records == [] then rows else InsertAll(Insert(rows, records[0]), records[1..])
  }

  /** The first record of a list that is stored under a key. */
  function FirstWith(records: seq<Record>, key: RowKey): Option<Record> {
    if records == [] then None
    else if KeyOf(records[0]) == Some(key) then Some(records[0])
    else FirstWith(records[1..], key)
  }

  lemma {:induction false} FirstHasKey(records: seq<Record>, key: RowKey)
    ensures FirstWith(records, key).Some? ==> KeyOf(FirstWith(records, key).value) == Some(key)
    ensures FirstWith(records, key).Some? <==> exists i :: 0 <= i < |records| && KeyOf(records[i]) == Some(key)
    decreases |records|
  {
    hide KeyOf;
    if records != [] {
      FirstHasKey(records[1..], key);
      forall i | 1 <= i < |records| && KeyOf(records[i]) == Some(key)
        ensures FirstWith(records, key).Some?
      {
        assert records[1..][i - 1] == records[i];
      }
      if FirstWith(records, key).Some? {
        if KeyOf(records[0]) != Some(key) {
          var j :| 0 <= j < |records[1..]| && KeyOf(records[1..][j]) == Some(key);
          assert records[j + 1] == records[1..][j];
        }
      }
    }
  }

  /** What a whole import leaves under a key: the old row, or else the row of the first record
      with that key. */
  lemma {:induction false} InsertAllAt(rows: Rows, records: seq<Record>, key: RowKey)
    ensures key in InsertAll(rows, records) <==> key in rows || FirstWith(records, key).Some?
    ensures key in rows ==> InsertAll(rows, records)[key] == rows[key]
    ensures key !in rows && FirstWith(records, key).Some? ==>
              KeyOf(FirstWith(records, key).value) == Some(key)
              && InsertAll(rows, records)[key] == RowOf(FirstWith(records, key).value)
    decreases |records|
  {
    FirstHasKey(records, key);
    hide KeyOf, RowOf;
    if records != [] {
      InsertAllAt(Insert(rows, records[0]), records[1..], key);
    }
  }

  // ---------------------------------------------------------------- the store object

  datatype Status = Queued | Running | Paused | Cancelling | Complete

  datatype Job = Job(
    start: int, end: int, chunkSeconds: nat, maxRecords: nat, status: Status, cursor: int,
    chunks: nat, received: nat, imported: nat, duplicates: nat)

  function NewJob(start: int, end: int, chunkSeconds: nat, maxRecords: nat): Job {
    Job(start, end, chunkSeconds, maxRecords, Queued, start, 0, 0, 0, 0)
  }

  /** What becomes of an operation: it works, fails before it has taken effect, or fails after
      that, as a write does that is stored but cannot be read back. */
  datatype Fault = Fine | Before | After

  datatype StoreError = OperationalError | AttributeError | KeyError

  class MonitoringStore {
    var rows: Rows
    var jobs: seq<Job>

    constructor (rows: Rows)
      ensures this.rows == rows && jobs == []
    {
      this.rows, jobs := rows, [];
    }

    /** INSERT OR IGNORE into the table the record belongs to; true if a row was added. */
    method InsertRecord(r: Record) returns (inserted: Result<bool, StoreError>, ghost fault: Fault)
      modifies `rows
      ensures Raises(r) ==> inserted == Failure(AttributeError) && rows == old(rows) && fault == Before
      ensures !Raises(r) ==>
                && rows == (if fault.Before? then old(rows) else Insert(old(rows), r))
                && inserted == if fault.Fine? then Success(Inserts(old(rows), r)) else Failure(OperationalError)
      ensures KeyOf(r).None? && !Raises(r) ==> fault.Fine?
      // which rows that makes
      ensures r.data.Number? && r.data.value != 0 ==> inserted == Failure(AttributeError) && rows == old(rows)
      ensures r.data.NoData? || r.data == Number(0) || (r.data.Fields? && r.data.timestamp.None?) ==>
                inserted == Success(false) && rows == old(rows)
      ensures r.data.Fields? && r.data.content.OtherFields? ==> inserted == Success(false) && rows == old(rows)
      ensures r.data.Fields? && r.data.timestamp.Some? && !r.data.content.OtherFields? && fault.Fine? ==>
                var key := RowKey(if r.data.content.Axes? then Samples else HealthRows,
                                  if r.headerNode.Some? && r.headerNode.value != 0 then r.headerNode.value
                                  else if r.data.headerNode.Some? then r.data.headerNode.value else 0,
                                  r.data.timestamp.value);
                && inserted == Success(key !in old(rows))
                && rows == if key in old(rows) then old(rows) else old(rows)[key := Row(r.data.content.columns)]
    {
      if r.data.Number? && r.data.value != 0 {
        return Failure(AttributeError), Before;
      }
      if !r.data.Fields? || r.data.timestamp.None? {
        return Success(false), Fine;
      }
      var nodeId := if r.headerNode.Some? then r.headerNode.value else 0;
      if nodeId == 0 && r.data.headerNode.Some? {
        nodeId := r.data.headerNode.value;
      }
      if r.data.content.OtherFields? {
        return Success(false), Fine;
      }
      var table := if r.data.content.Axes? then Samples else HealthRows;
      var key := RowKey(table, nodeId, r.data.timestamp.value);
      var outcome: Fault := *;
      var added := key !in rows;
      if !outcome.Before? && added {
        rows := rows[key := Row(r.data.content.columns)];
      }
      return if outcome.Fine? then Success(added) else Failure(OperationalError), outcome;
    }

    /** Inserts the job and reads it back; returns its row ID. */
    method CreateHistoryJob(start: int, end: int, chunkSeconds: nat, maxRecords: nat)
      returns (id: Result<nat, StoreError>, ghost fault: Fault)
      modifies `jobs
      ensures jobs == if fault.Before? then old(jobs)
                      else old(jobs) + [Job(start, end, chunkSeconds, maxRecords, Queued, start, 0, 0, 0, 0)]
      ensures id == if fault.Fine? then Success(|old(jobs)|) else Failure(OperationalError)
    {
      var outcome: Fault := *;
      id := if outcome.Fine? then Success(|jobs|) else Failure(OperationalError);
      if !outcome.Before? {
        jobs := jobs + [NewJob(start, end, chunkSeconds, maxRecords)];
      }
      fault := outcome;
    }

    method HistoryJob(id: nat) returns (job: Result<Option<Job>, StoreError>)
      ensures job == Failure(OperationalError) || job == Success(if id < |jobs| then Some(jobs[id]) else None)
    {
      var fault: bool := *;
      if fault {
        return Failure(OperationalError);
      }
      return Success(if id < |jobs| then Some(jobs[id]) else None);
    }

    /** What an update of a job returns, once it has changed the row, if there is one. */
    function ReadBack(id: nat, outcome: Fault): Result<Job, StoreError>
      reads `jobs
    {
      if !outcome.Fine? then Failure(OperationalError)
      else if id >= |jobs| then Failure(KeyError)
      else Success(jobs[id])
    }

    method UpdateStatus(id: nat, status: Status) returns (job: Result<Job, StoreError>, ghost fault: Fault)
      modifies `jobs
      ensures id >= |old(jobs)| ==> jobs == old(jobs) && job.Failure? && (fault.Fine? ==> job.error == KeyError)
      ensures id < |old(jobs)| ==>
                var row := old(jobs)[id].(status := status);
                && jobs == (if fault.Before? then old(jobs) else old(jobs)[id := row])
                && job == if fault.Fine? then Success(row) else Failure(OperationalError)
    {
      var outcome: Fault := *;
      if !outcome.Before? && id < |jobs| {
        jobs := jobs[id := jobs[id].(status := status)];
      }
      return ReadBack(id, outcome), outcome;
    }

    /** Writes the cursor and the counters, and leaves the status to whoever wrote it last. */
    method UpdateProgress(id: nat, cursor: int, chunks: nat, received: nat, imported: nat, duplicates: nat)
      returns (job: Result<Job, StoreError>, ghost fault: Fault)
      modifies `jobs
      ensures id >= |old(jobs)| ==> jobs == old(jobs) && job.Failure? && (fault.Fine? ==> job.error == KeyError)
      ensures id < |old(jobs)| ==>
                var row := old(jobs)[id].(cursor := cursor, chunks := chunks, received := received,
                                          imported := imported, duplicates := duplicates);
                && jobs == (if fault.Before? then old(jobs) else old(jobs)[id := row])
                && job == if fault.Fine? then Success(row) else Failure(OperationalError)
    {
      var outcome: Fault := *;
      if !outcome.Before? && id < |jobs| {
        jobs := jobs[id := jobs[id].(cursor := cursor, chunks := chunks, received := received, imported := imported,
                                     duplicates := duplicates)];
      }
      return ReadBack(id, outcome), outcome;
    }
  }
}
