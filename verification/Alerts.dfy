/** The alert life cycle (set_alert and acknowledge_alert in tools/monitoring_store.py) and the
    rules that drive it (tools/alert_engine.py). */
module Alerts {
  import opened Common

  datatype Axis = X | Y | Z

  datatype Rule = Absolute(axis: Axis) | Rate(axis: Axis) | SensorError | LowBattery | MissingData

  datatype Key = Key(nodeId: int, rule: Rule)

  datatype Severity = Warning | Critical

  /** What a call reports; an open alert shows the latest. */
  datatype Details = Details(observed: Option<real>, threshold: Option<real>, sampleTimestamp: int)

  datatype Alert = Alert(key: Key, severity: Severity, open: bool, details: Details, acknowledged: bool)

  /** One call on the table; alert ids are row numbers. */
  datatype Call =
    | Set(key: Key, active: bool, details: Details, severity: Severity)
    | Acknowledge(id: nat)

  // ---------------------------------------------------------------- the table

  /** The first open row of a key. */
  function FindOpen(rows: seq<Alert>, key: Key, from: nat): (id: Option<nat>)
    requires from <= |rows|
    ensures id.Some? ==> from <= id.value < |rows| && rows[id.value].open && rows[id.value].key == key
    ensures id.None? ==> forall i :: from <= i < |rows| ==> !(rows[i].open && rows[i].key == key)
    decreases |rows| - from
  {
    if from == |rows| then None
    else if rows[from].open && rows[from].key == key then Some(from)
    else FindOpen(rows, key, from + 1)
  }

  function Apply(rows: seq<Alert>, call: Call): seq<Alert> {
    match call
    case Acknowledge(id) => if id < |rows| then rows[id := rows[id].(acknowledged := true)] else rows
    case Set(key, active, details, severity) =>
      match FindOpen(rows, key, 0)
      case Some(id) => rows[id := if active then rows[id].(details := details) else rows[id].(open := false)]
      case None => if active then rows + [Alert(key, severity, true, details, false)] else rows
  }

  function ApplyAll(rows: seq<Alert>, calls: seq<Call>): seq<Alert> {
    if calls == [] then rows else Apply(ApplyAll(rows, calls[..|calls| - 1]), calls[|calls| - 1])
  }

  class AlertTable {
    var rows: seq<Alert>

    constructor ()
      ensures rows == []
    {
      rows := [];
    }

    method SetAlert(key: Key, active: bool, details: Details, severity: Severity)
      modifies this
      ensures rows == Apply(old(rows), Set(key, active, details, severity))
    {
      var id := 0;
      while id < |rows| && !(rows[id].open && rows[id].key == key)
        invariant id <= |rows| && FindOpen(rows, key, 0) == FindOpen(rows, key, id)
      {
        id := id + 1;
      }
      if active && id < |rows| {
        rows := rows[id := rows[id].(details := details)];
      } else if active {
        rows := rows + [Alert(key, severity, true, details, false)];
      } else if id < |rows| {
        rows := rows[id := rows[id].(open := false)];
      }
    }

    method AcknowledgeAlert(id: nat) returns (found: bool)
      modifies this
      ensures rows == Apply(old(rows), Acknowledge(id)) && found == (id < |old(rows)|)
      ensures rows == if found then old(rows)[id := old(rows)[id].(acknowledged := true)] else old(rows)
    {
      found := id < |rows|;
      if found {
        rows := rows[id := rows[id].(acknowledged := true)];
      }
    }
  }

  // ---------------------------------------------------------------- histories

  predicate IsOpen(rows: seq<Alert>, key: Key) {
    exists i :: 0 <= i < |rows| && rows[i].open && rows[i].key == key
  }

  predicate OneOpen(rows: seq<Alert>) {
    forall i, j :: 0 <= i < j < |rows| && rows[i].open && rows[j].open ==> rows[i].key != rows[j].key
  }

  function CountKey(rows: seq<Alert>, key: Key): nat {
    if rows == [] then 0
    else CountKey(rows[..|rows| - 1], key) + if rows[|rows| - 1].key == key then 1 else 0
  }

  /** The last call on a key, if any. */
  function LastCall(calls: seq<Call>, key: Key): (call: Option<Call>)
    ensures call.Some? ==> call.value.Set? && call.value.key == key
  {
    if calls == [] then None
    else
      var last := calls[|calls| - 1];
      if last.Set? && last.key == key then Some(last) else LastCall(calls[..|calls| - 1], key)
  }

  /** Whether the last call on a key was active. */
  predicate Active(calls: seq<Call>, key: Key) {
    LastCall(calls, key).Some? && LastCall(calls, key).value.active
  }

  /** How often a key went from inactive to active. */
  function Edges(calls: seq<Call>, key: Key): nat {
    if calls == [] then 0
    else
      var before, last := calls[..|calls| - 1], calls[|calls| - 1];
      Edges(before, key) + if last.Set? && last.key == key && last.active && !Active(before, key) then 1 else 0
  }

  lemma {:induction false} CountKeyUpdate(rows: seq<Alert>, i: nat, row: Alert, key: Key)
    requires i < |rows| && row.key == rows[i].key
    ensures CountKey(rows[i := row], key) == CountKey(rows, key)
    decreases |rows|
  {
    var n := |rows| - 1;
    if i < n {
      CountKeyUpdate(rows[..n], i, row, key);
      assert rows[i := row][..n] == rows[..n][i := row];
    } else {
      assert rows[i := row][..n] == rows[..n];
    }
  }

  lemma CountKeyAppend(rows: seq<Alert>, row: Alert, key: Key)
    ensures CountKey(rows + [row], key) == CountKey(rows, key) + if row.key == key then 1 else 0
  {
    assert (rows + [row])[..|rows|] == rows;
  }

  lemma SameOpen(rows: seq<Alert>, rows': seq<Alert>, key: Key)
    requires |rows| == |rows'|
    requires forall i :: 0 <= i < |rows| ==> rows'[i].open == rows[i].open && rows'[i].key == rows[i].key
    ensures IsOpen(rows, key) <==> IsOpen(rows', key)
  {
    if IsOpen(rows, key) {
      var i :| 0 <= i < |rows| && rows[i].open && rows[i].key == key;
      assert rows'[i].open && rows'[i].key == key;
    }
  }

  /** Changing the only open row of a key. */
  lemma UpdateOpen(rows: seq<Alert>, id: nat, row: Alert, key: Key)
    requires OneOpen(rows) && id < |rows| && rows[id].open && row.key == rows[id].key
    ensures IsOpen(rows[id := row], key) <==> if row.key == key then row.open else IsOpen(rows, key)
    ensures OneOpen(rows[id := row])
  {
    var rows' := rows[id := row];
    if row.key == key {
      if row.open { assert rows'[id].open; }
      forall i | 0 <= i < |rows'| && i != id ensures !(rows'[i].open && rows'[i].key == key) {
        assert rows'[i] == rows[i];
      }
    } else if IsOpen(rows, key) {
      var i :| 0 <= i < |rows| && rows[i].open && rows[i].key == key;
      assert rows'[i] == rows[i];
    }
  }

  lemma AppendOpen(rows: seq<Alert>, row: Alert, key: Key)
    requires row.open
    ensures IsOpen(rows + [row], key) <==> row.key == key || IsOpen(rows, key)
  {
    var rows' := rows + [row];
    if row.key == key { assert rows'[|rows|] == row; }
    if IsOpen(rows, key) {
      var i :| 0 <= i < |rows| && rows[i].open && rows[i].key == key;
      assert rows'[i] == rows[i];
    }
  }

  /** One call: rows keep their keys, only the called key's open row can change or appear. */
  lemma ApplyKeeps(rows: seq<Alert>, call: Call, key: Key)
    requires OneOpen(rows)
    ensures OneOpen(Apply(rows, call))
    ensures IsOpen(Apply(rows, call), key) <==>
            if call.Set? && call.key == key then call.active else IsOpen(rows, key)
    ensures CountKey(Apply(rows, call), key) == CountKey(rows, key)
            + if call.Set? && call.key == key && call.active && !IsOpen(rows, key) then 1 else 0
  {
    var rows' := Apply(rows, call);
    match call {
      case Acknowledge(id) =>
        if id < |rows| {
          CountKeyUpdate(rows, id, rows'[id], key);
          assert forall i :: 0 <= i < |rows| ==> rows'[i].open == rows[i].open && rows'[i].key == rows[i].key;
          SameOpen(rows, rows', key);
        }
      case Set(k, active, details, severity) =>
        var id := FindOpen(rows, k, 0);
        if id.Some? {
          CountKeyUpdate(rows, id.value, rows'[id.value], key);
          assert IsOpen(rows, k);
          UpdateOpen(rows, id.value, rows'[id.value], key);
        } else if active {
          CountKeyAppend(rows, rows'[|rows|], key);
          AppendOpen(rows, rows'[|rows|], key);
        }
    }
  }

  /** The life cycle, exactly: after any calls, a key has at most one open row; it has one if and
      only if its last call was active; and it has as many rows as its history has edges from
      inactive to active. */
  lemma {:induction false} LifeCycle(calls: seq<Call>, key: Key)
    ensures var rows := ApplyAll([], calls);
            && OneOpen(rows)
            && (IsOpen(rows, key) <==> Active(calls, key))
            && CountKey(rows, key) == Edges(calls, key)
    decreases |calls|
  {
    if calls != [] {
      var before, last := calls[..|calls| - 1], calls[|calls| - 1];
      LifeCycle(before, key);
      var rows := ApplyAll([], before);
      ApplyKeeps(rows, last, key);
      assert ApplyAll([], calls) == Apply(rows, last);
      hide Apply, OneOpen, IsOpen, ApplyAll, CountKey;
    }
  }

  /** The open row of a key shows what its last call reported. */
  lemma {:induction false} OpenRowShowsLastCall(calls: seq<Call>, i: nat)
    requires i < |ApplyAll([], calls)| && ApplyAll([], calls)[i].open
    ensures var row := ApplyAll([], calls)[i];
            Active(calls, row.key) && row.details == LastCall(calls, row.key).value.details
    decreases |calls|
  {
    var before, last := calls[..|calls| - 1], calls[|calls| - 1];
    var rows := ApplyAll([], before);
    var key := ApplyAll([], calls)[i].key;
    LifeCycle(before, key);
    if i < |rows| && rows[i].open { OpenRowShowsLastCall(before, i); }
  }

  /** A resolved row stays as it is for good, but for its acknowledgement; no row loses its key,
      and an acknowledgement changes nothing else. */
  lemma {:induction false} ResolvedStays(rows: seq<Alert>, calls: seq<Call>, i: nat)
    requires i < |rows|
    ensures i < |ApplyAll(rows, calls)| && ApplyAll(rows, calls)[i].key == rows[i].key
    ensures ApplyAll(rows, calls)[i].severity == rows[i].severity
    ensures rows[i].acknowledged ==> ApplyAll(rows, calls)[i].acknowledged
    ensures !rows[i].open ==>
              ApplyAll(rows, calls)[i] == rows[i].(acknowledged := ApplyAll(rows, calls)[i].acknowledged)
    decreases |calls|
  {
    if calls != [] {
      ResolvedStays(rows, calls[..|calls| - 1], i);
    }
  }

  /** Rows are never lost. */
  lemma {:induction false} RowsStay(calls: seq<Call>, j: nat)
    requires j <= |calls|
    ensures |ApplyAll([], calls[..j])| <= |ApplyAll([], calls)|
    decreases |calls|
  {
    if j < |calls| {
      RowsStay(calls[..|calls| - 1], j);
      assert calls[..|calls| - 1][..j] == calls[..j];
    } else {
      assert calls[..j] == calls;
    }
  }

  /** Row `id` is acknowledged after it has been opened. */
  ghost predicate Marked(calls: seq<Call>, id: nat) {
    exists j :: 0 <= j < |calls| && calls[j] == Acknowledge(id) && id < |ApplyAll([], calls[..j])|
  }

  lemma MarkedStep(calls: seq<Call>, id: nat)
    requires calls != []
    ensures var before, last := calls[..|calls| - 1], calls[|calls| - 1];
            Marked(calls, id) <==> Marked(before, id) || (last == Acknowledge(id) && id < |ApplyAll([], before)|)
  {
    var n := |calls| - 1;
    var before := calls[..n];
    hide ApplyAll;
    if Marked(before, id) {
      var j :| 0 <= j < |before| && before[j] == Acknowledge(id) && id < |ApplyAll([], before[..j])|;
      assert calls[j] == Acknowledge(id) && calls[..j] == before[..j];
    }
    if Marked(calls, id) {
      var j :| 0 <= j < |calls| && calls[j] == Acknowledge(id) && id < |ApplyAll([], calls[..j])|;
      if j < n { assert before[j] == Acknowledge(id) && before[..j] == calls[..j]; }
    }
  }

  lemma NotBeforeItIsThere(calls: seq<Call>, id: nat)
    requires Marked(calls, id)
    ensures id < |ApplyAll([], calls)|
  {
    var j :| 0 <= j < |calls| && calls[j] == Acknowledge(id) && id < |ApplyAll([], calls[..j])|;
    RowsStay(calls, j);
  }

  /** A row is marked exactly if one of the calls acknowledged it after it had been opened. */
  lemma {:induction false} MarksAreAcknowledgements(calls: seq<Call>, id: nat)
    requires id < |ApplyAll([], calls)|
    ensures ApplyAll([], calls)[id].acknowledged <==> Marked(calls, id)
    decreases |calls|
  {
    var before, last := calls[..|calls| - 1], calls[|calls| - 1];
    var rows := ApplyAll([], before);
    assert ApplyAll([], calls) == Apply(rows, last);
    MarkedStep(calls, id);
    hide ApplyAll, Marked;
    if id < |rows| {
      MarksAreAcknowledgements(before, id);
    } else if Marked(before, id) {
      NotBeforeItIsThere(before, id);
    }
  }

  /** The rows with every acknowledgement taken away. */
  function Unmarked(rows: seq<Alert>): (plain: seq<Alert>)
    ensures |plain| == |rows|
  {
    seq(|rows|, i requires 0 <= i < |rows| => rows[i].(acknowledged := false))
  }

  /** The calls without the acknowledgements. */
  function SetsOnly(calls: seq<Call>): seq<Call> {
    if calls == [] then []
    else
      var last := calls[|calls| - 1];
      SetsOnly(calls[..|calls| - 1]) + if last.Set? then [last] else []
  }

  lemma {:induction false} FoundUnmarked(rows: seq<Alert>, key: Key, from: nat)
    requires from <= |rows|
    ensures FindOpen(Unmarked(rows), key, from) == FindOpen(rows, key, from)
    decreases |rows| - from
  {
    if from < |rows| { FoundUnmarked(rows, key, from + 1); }
  }

  lemma ApplyUnmarked(rows: seq<Alert>, call: Call)
    ensures Unmarked(Apply(rows, call)) == if call.Set? then Unmarked(Apply(Unmarked(rows), call)) else Unmarked(rows)
  {
    if call.Set? {
      FoundUnmarked(rows, call.key, 0);
    }
  }

  /** Acknowledgements never change state: after any calls the rows are, but for their marks, those
      of the same calls without the acknowledgements. */
  lemma {:induction false} AcknowledgementsDoNotMatter(calls: seq<Call>)
    ensures Unmarked(ApplyAll([], calls)) == Unmarked(ApplyAll([], SetsOnly(calls)))
    decreases |calls|
  {
    if calls != [] {
      var before, last := calls[..|calls| - 1], calls[|calls| - 1];
      AcknowledgementsDoNotMatter(before);
      var rows, plain := ApplyAll([], before), ApplyAll([], SetsOnly(before));
      ApplyUnmarked(rows, last);
      ApplyUnmarked(plain, last);
      hide Apply, Unmarked;
      if last.Set? {
        var sets := SetsOnly(before) + [last];
        assert sets[..|sets| - 1] == SetsOnly(before);
        assert ApplyAll([], sets) == Apply(plain, last);
      } else {
        assert SetsOnly(before) + [] == SetsOnly(before);
      }
    }
  }

  // ---------------------------------------------------------------- the rules

  datatype Sample = Sample(
    nodeId: int, timestamp: int, degrees: map<Axis, real>, errorCode: Option<int>)

  datatype Health = Health(nodeId: int, timestamp: int, battery: Option<real>)

  datatype Rules = Rules(
    absolute: map<Axis, real>, ratePerMinute: Option<real>, sensorError: bool,
    lowBattery: Option<real>, missingSeconds: Option<int>)

  function Abs(v: real): real {
    if v < 0.0 then -v else v
  }

  function Lookup(m: map<Axis, real>, a: Axis): Option<real> {
    if a in m then Some(m[a]) else None
  }

  function Magnitude(v: Option<real>): Option<real> {
    if v.Some? then Some(Abs(v.value)) else None
  }

  predicate AtLeast(v: Option<real>, limit: Option<real>) {
    v.Some? && limit.Some? && v.value >= limit.value
  }

  /** The size of a change, per minute. */
  function PerMinute(d: real, elapsed: int): real
    requires elapsed > 0
  {
    Abs(d) * 60.0 / elapsed as real
  }

  /** Degrees per minute since the previous sample, if the rule is on, time has passed and both
      samples have the axis. */
  function RateOf(sample: Sample, previous: Option<Sample>, rules: Rules, a: Axis): Option<real> {
    if rules.ratePerMinute.None? || previous.None? || a !in sample.degrees then None
    else
      var elapsed := sample.timestamp - previous.value.timestamp;
      if elapsed <= 0 || a !in previous.value.degrees then None
      else Some(PerMinute(sample.degrees[a] - previous.value.degrees[a], elapsed))
  }

  function AbsoluteCall(sample: Sample, rules: Rules, a: Axis): Call {
    var v, limit := Magnitude(Lookup(sample.degrees, a)), Lookup(rules.absolute, a);
    Set(Key(sample.nodeId, Absolute(a)), AtLeast(v, limit), Details(v, limit, sample.timestamp), Warning)
  }

  function RateCall(sample: Sample, previous: Option<Sample>, rules: Rules, a: Axis): Call {
    var v := RateOf(sample, previous, rules, a);
    Set(Key(sample.nodeId, Rate(a)), AtLeast(v, rules.ratePerMinute), Details(v, rules.ratePerMinute, sample.timestamp),
        Warning)
  }

  function ErrorCall(sample: Sample, rules: Rules): Call {
    var e := sample.errorCode;
    Set(Key(sample.nodeId, SensorError), rules.sensorError && e.Some? && e.value != 0,
        Details(if e.Some? then Some(e.value as real) else None, Some(0.0), sample.timestamp), Critical)
  }

  /** The calls one sample makes, in order. */
  function SampleCalls(sample: Sample, previous: Option<Sample>, rules: Rules): seq<Call> {
    [AbsoluteCall(sample, rules, X), AbsoluteCall(sample, rules, Y), AbsoluteCall(sample, rules, Z),
     RateCall(sample, previous, rules, X), RateCall(sample, previous, rules, Y), RateCall(sample, previous, rules, Z),
     ErrorCall(sample, rules)]
  }

  const AXES: seq<Axis> := [X, Y, Z]

  method EvaluateSample(table: AlertTable, sample: Sample, previous: Option<Sample>, rules: Rules)
    modifies table
    ensures table.rows == ApplyAll(old(table.rows), SampleCalls(sample, previous, rules))
  {
    hide Apply;
    ghost var rows0, calls := table.rows, SampleCalls(sample, previous, rules);
    assert calls[..0] == [];
    for i := 0 to 3
      invariant table.rows == ApplyAll(rows0, calls[..i])
    {
      var axis := AXES[i];
      var value, limit := Lookup(sample.degrees, axis), Lookup(rules.absolute, axis);
      var active := limit.Some? && value.Some? && Abs(value.value) >= limit.value;
      assert calls[..i + 1][..i] == calls[..i];
      table.SetAlert(Key(sample.nodeId, Absolute(axis)), active,
                     Details(Magnitude(value), limit, sample.timestamp), Warning);
    }
    for i := 0 to 3
      invariant table.rows == ApplyAll(rows0, calls[..3 + i])
    {
      var axis := AXES[i];
      var rate := None;
      if rules.ratePerMinute.Some? && previous.Some? && axis in sample.degrees {
        var elapsed := sample.timestamp - previous.value.timestamp;
        if elapsed > 0 && axis in previous.value.degrees {
          rate := Some(Abs(sample.degrees[axis] - previous.value.degrees[axis]) * 60.0 / elapsed as real);
        }
      }
      assert calls[..3 + i + 1][..3 + i] == calls[..3 + i];
      table.SetAlert(Key(sample.nodeId, Rate(axis)), AtLeast(rate, rules.ratePerMinute),
                     Details(rate, rules.ratePerMinute, sample.timestamp), Warning);
    }
    var error := sample.errorCode;
    assert calls[..6] == calls[..|calls| - 1];
    table.SetAlert(Key(sample.nodeId, SensorError), rules.sensorError && error.Some? && error.value != 0,
                   Details(if error.Some? then Some(error.value as real) else None, Some(0.0), sample.timestamp),
                   Critical);
  }

  /** The open row of a key shows these details, and has this severity if it is new. */
  predicate Shows(before: seq<Alert>, rows: seq<Alert>, key: Key, details: Details, severity: Severity) {
    forall i :: 0 <= i < |rows| && rows[i].open && rows[i].key == key ==>
      rows[i].details == details && (i >= |before| ==> rows[i].severity == severity)
  }

  lemma OneCallShows(rows: seq<Alert>, call: Call)
    requires OneOpen(rows) && call.Set?
    ensures Shows(rows, Apply(rows, call), call.key, call.details, call.severity)
  {
  }

  /** One call decides its key and leaves every other key alone. */
  lemma OneCallDecides(rows: seq<Alert>, call: Call)
    requires OneOpen(rows) && call.Set?
    ensures OneOpen(Apply(rows, call))
    ensures forall key: Key :: IsOpen(Apply(rows, call), key) <==>
                               if key == call.key then call.active else IsOpen(rows, key)
    ensures Shows(rows, Apply(rows, call), call.key, call.details, call.severity)
  {
    OneCallShows(rows, call);
    hide Apply, IsOpen, OneOpen, Shows;
    ApplyKeeps(rows, call, call.key);
    forall key: Key
      ensures IsOpen(Apply(rows, call), key) <==> if key == call.key then call.active else IsOpen(rows, key)
    {
      ApplyKeeps(rows, call, key);
    }
  }

  function HealthCall(health: Health, rules: Rules): Call {
    var active := rules.lowBattery.Some? && health.battery.Some? && health.battery.value <= rules.lowBattery.value;
    Set(Key(health.nodeId, LowBattery), active, Details(health.battery, rules.lowBattery, health.timestamp), Critical)
  }

  /** Afterwards the low-battery alert of the node is open exactly when both values are there and
      the battery is at or below its threshold; every other key is as it was. */
  method EvaluateHealth(table: AlertTable, health: Health, rules: Rules)
    modifies table
    ensures table.rows == Apply(old(table.rows), HealthCall(health, rules))
    ensures OneOpen(old(table.rows)) ==> OneOpen(table.rows)
    ensures OneOpen(old(table.rows)) ==>
              forall key: Key :: IsOpen(table.rows, key) <==>
                if key == Key(health.nodeId, LowBattery)
                then rules.lowBattery.Some? && health.battery.Some? && health.battery.value <= rules.lowBattery.value
                else IsOpen(old(table.rows), key)
    ensures OneOpen(old(table.rows)) ==>
              Shows(old(table.rows), table.rows, Key(health.nodeId, LowBattery),
                    Details(health.battery, rules.lowBattery, health.timestamp), Critical)
  {
    var battery, threshold := health.battery, rules.lowBattery;
    var active := threshold.Some? && battery.Some? && battery.value <= threshold.value;
    if OneOpen(table.rows) { OneCallDecides(table.rows, HealthCall(health, rules)); }
    hide Apply, IsOpen, OneOpen, Shows;
    table.SetAlert(Key(health.nodeId, LowBattery), active, Details(battery, threshold, health.timestamp), Critical);
  }

  function MissingCall(latest: Sample, rules: Rules, now: int): Call {
    var age := now - latest.timestamp;
    Set(Key(latest.nodeId, MissingData), rules.missingSeconds.Some? && age >= rules.missingSeconds.value,
        Details(Some(age as real),
                if rules.missingSeconds.Some? then Some(rules.missingSeconds.value as real) else None,
                latest.timestamp), Critical)
  }

  /** Nothing is evaluated before a first sample is stored.  Afterwards the missing-data alert of
      the node of the latest sample is open exactly when the rule is on and the sample is that old;
      every other key is as it was. */
  method EvaluateMissingData(table: AlertTable, latest: Option<Sample>, rules: Rules, now: int)
    modifies table
    ensures latest.None? ==> table.rows == old(table.rows)
    ensures latest.Some? ==> table.rows == Apply(old(table.rows), MissingCall(latest.value, rules, now))
    ensures OneOpen(old(table.rows)) ==> OneOpen(table.rows)
    ensures OneOpen(old(table.rows)) ==>
              forall key: Key :: IsOpen(table.rows, key) <==>
                if latest.Some? && key == Key(latest.value.nodeId, MissingData)
                then rules.missingSeconds.Some? && now - latest.value.timestamp >= rules.missingSeconds.value
                else IsOpen(old(table.rows), key)
    ensures OneOpen(old(table.rows)) && latest.Some? ==>
              var limit := if rules.missingSeconds.Some? then Some(rules.missingSeconds.value as real) else None;
              Shows(old(table.rows), table.rows, Key(latest.value.nodeId, MissingData),
                    Details(Some((now - latest.value.timestamp) as real), limit, latest.value.timestamp), Critical)
  {
    if latest.None? {
      return;
    }
    var threshold := rules.missingSeconds;
    var age := now - latest.value.timestamp;
    if OneOpen(table.rows) { OneCallDecides(table.rows, MissingCall(latest.value, rules, now)); }
    hide Apply, IsOpen, OneOpen, Shows;
    table.SetAlert(Key(latest.value.nodeId, MissingData), threshold.Some? && age >= threshold.value,
                   Details(Some(age as real), if threshold.Some? then Some(threshold.value as real) else None,
                           latest.value.timestamp), Critical);
  }

  lemma {:induction false} CallsOnOneKey(rows: seq<Alert>, calls: seq<Call>, key: Key)
    requires OneOpen(rows)
    ensures OneOpen(ApplyAll(rows, calls))
    ensures IsOpen(ApplyAll(rows, calls), key) <==>
            if LastCall(calls, key).Some? then LastCall(calls, key).value.active else IsOpen(rows, key)
    decreases |calls|
  {
    if calls != [] {
      CallsOnOneKey(rows, calls[..|calls| - 1], key);
      hide Apply, OneOpen, IsOpen;
      ApplyKeeps(ApplyAll(rows, calls[..|calls| - 1]), calls[|calls| - 1], key);
    }
  }

  /** The last of seven calls on a key. */
  lemma LastOfSeven(calls: seq<Call>, key: Key)
    requires |calls| == 7 && forall i :: 0 <= i < 7 ==> calls[i].Set?
    ensures LastCall(calls, key) ==
            if calls[6].key == key then Some(calls[6]) else if calls[5].key == key then Some(calls[5])
            else if calls[4].key == key then Some(calls[4]) else if calls[3].key == key then Some(calls[3])
            else if calls[2].key == key then Some(calls[2]) else if calls[1].key == key then Some(calls[1])
            else if calls[0].key == key then Some(calls[0]) else None
  {
    assert calls[..6][..5] == calls[..5] && calls[..5][..4] == calls[..4] && calls[..4][..3] == calls[..3];
    assert calls[..3][..2] == calls[..2] && calls[..2][..1] == calls[..1] && calls[..1][..0] == [];
    assert LastCall(calls[..1], key) == if calls[0].key == key then Some(calls[0]) else None;
    assert LastCall(calls[..3], key) ==
           if calls[2].key == key then Some(calls[2]) else if calls[1].key == key then Some(calls[1])
           else LastCall(calls[..1], key);
    assert LastCall(calls[..5], key) ==
           if calls[4].key == key then Some(calls[4]) else if calls[3].key == key then Some(calls[3])
           else LastCall(calls[..3], key);
  }

  lemma Scaled(a: real, b: real, e: real)
    requires a <= b && e > 0.0
    ensures a * e <= b * e
  {
  }

  lemma ScaledStrictly(a: real, b: real, e: real)
    requires a < b && e > 0.0
    ensures a * e < b * e
  {
  }

  /** The rate, times the minutes that have passed, is the change, and it reaches a limit exactly if
      the change reaches the limit times the minutes. */
  lemma RateReaches(d: real, elapsed: int, limit: real)
    requires elapsed > 0
    ensures PerMinute(d, elapsed) >= limit <==>
            d * 60.0 >= limit * elapsed as real || -d * 60.0 >= limit * elapsed as real
    ensures PerMinute(d, elapsed) >= 0.0
    ensures var minutes := elapsed as real / 60.0;
            PerMinute(d, elapsed) * minutes == d || PerMinute(d, elapsed) * minutes == -d
  {
    var e, rate := elapsed as real, PerMinute(d, elapsed);
    assert rate * e == Abs(d) * 60.0;
    if rate >= limit { Scaled(limit, rate, e); } else { ScaledStrictly(rate, limit, e); }
    if rate < 0.0 { ScaledStrictly(rate, 0.0, e); }
    assert rate * (e / 60.0) == rate * e / 60.0;
  }

  /** The axis is tilted by at least its limit, either way. */
  predicate Tilted(sample: Sample, rules: Rules, a: Axis) {
    && a in sample.degrees && a in rules.absolute
    && (sample.degrees[a] >= rules.absolute[a] || -sample.degrees[a] >= rules.absolute[a])
  }

  /** Since the previous sample the axis has turned, either way, by at least the limit for the time
      that has passed: so many degrees a minute. */
  predicate Turned(sample: Sample, previous: Option<Sample>, rules: Rules, a: Axis) {
    && rules.ratePerMinute.Some? && previous.Some? && a in sample.degrees && a in previous.value.degrees
    && var elapsed, d := sample.timestamp - previous.value.timestamp,
                         sample.degrees[a] - previous.value.degrees[a];
       && elapsed > 0
       && (d * 60.0 >= rules.ratePerMinute.value * elapsed as real
           || -d * 60.0 >= rules.ratePerMinute.value * elapsed as real)
  }

  /** The only call of a sample on the key of a rule, and what makes it active. */
  lemma CallOnRule(sample: Sample, previous: Option<Sample>, rules: Rules, key: Key)
    requires key.nodeId == sample.nodeId
    ensures var last := LastCall(SampleCalls(sample, previous, rules), key);
            match key.rule
            case Absolute(a) => last == Some(AbsoluteCall(sample, rules, a))
            case Rate(a) => last == Some(RateCall(sample, previous, rules, a))
            case SensorError => last == Some(ErrorCall(sample, rules))
            case LowBattery => last == None
            case MissingData => last == None
  {
    var calls := SampleCalls(sample, previous, rules);
    LastOfSeven(calls, key);
    hide AtLeast, RateOf, LastCall;
    assert calls[0] == AbsoluteCall(sample, rules, X) && calls[1] == AbsoluteCall(sample, rules, Y);
    assert calls[2] == AbsoluteCall(sample, rules, Z) && calls[3] == RateCall(sample, previous, rules, X);
    assert calls[4] == RateCall(sample, previous, rules, Y) && calls[5] == RateCall(sample, previous, rules, Z);
    assert calls[6] == ErrorCall(sample, rules);
    match key.rule {
      case Absolute(a) => assert a == X || a == Y || a == Z;
      case Rate(a) => assert a == X || a == Y || a == Z;
      case _ =>
    }
  }

  lemma NoOtherCall(sample: Sample, previous: Option<Sample>, rules: Rules, key: Key)
    requires key.nodeId != sample.nodeId
    ensures LastCall(SampleCalls(sample, previous, rules), key) == None
  {
    LastOfSeven(SampleCalls(sample, previous, rules), key);
    hide AtLeast, RateOf, LastCall;
  }

  lemma RateIsActive(sample: Sample, previous: Option<Sample>, rules: Rules, a: Axis)
    ensures RateCall(sample, previous, rules, a).active <==> Turned(sample, previous, rules, a)
  {
    if RateOf(sample, previous, rules, a).Some? {
      RateReaches(sample.degrees[a] - previous.value.degrees[a], sample.timestamp - previous.value.timestamp,
                  rules.ratePerMinute.value);
    }
    hide PerMinute;
  }

  lemma TiltIsActive(sample: Sample, rules: Rules, a: Axis)
    ensures AbsoluteCall(sample, rules, a).active <==> Tilted(sample, rules, a)
  {
  }

  /** After a sample, each of its node's sample rules is open exactly when its condition holds,
      whatever was open before, and every other key is as it was. */
  lemma SampleDecidesItsRules(rows: seq<Alert>, sample: Sample, previous: Option<Sample>, rules: Rules, key: Key)
    requires OneOpen(rows)
    ensures var rows' := ApplyAll(rows, SampleCalls(sample, previous, rules));
            IsOpen(rows', key) <==>
              if key.nodeId != sample.nodeId || key.rule.LowBattery? || key.rule.MissingData? then IsOpen(rows, key)
              else match key.rule
                   case Absolute(a) => Tilted(sample, rules, a)
                   case Rate(a) => Turned(sample, previous, rules, a)
                   case _ => rules.sensorError && sample.errorCode.Some? && sample.errorCode.value != 0
  {
    CallsOnOneKey(rows, SampleCalls(sample, previous, rules), key);
    if key.nodeId == sample.nodeId {
      CallOnRule(sample, previous, rules, key);
    } else {
      NoOtherCall(sample, previous, rules, key);
    }
    hide ApplyAll, IsOpen, OneOpen, LastCall, SampleCalls;
    match key.rule {
      case Absolute(a) => TiltIsActive(sample, rules, a);
      case Rate(a) => RateIsActive(sample, previous, rules, a);
      case _ =>
    }
    hide AbsoluteCall, RateCall;
  }

  /** An open row whose key has been called shows what the last of these calls reported. */
  lemma {:induction false} ShownByLast(rows: seq<Alert>, calls: seq<Call>, i: nat)
    requires OneOpen(rows) && i < |ApplyAll(rows, calls)| && ApplyAll(rows, calls)[i].open
    requires LastCall(calls, ApplyAll(rows, calls)[i].key).Some?
    ensures ApplyAll(rows, calls)[i].details == LastCall(calls, ApplyAll(rows, calls)[i].key).value.details
    decreases |calls|
  {
    var before, last := calls[..|calls| - 1], calls[|calls| - 1];
    var rows1 := ApplyAll(rows, before);
    var key := ApplyAll(rows, calls)[i].key;
    CallsOnOneKey(rows, before, key);
    assert ApplyAll(rows, calls) == Apply(rows1, last);
    hide ApplyAll;
    if last.Set? && last.key == key {
      if i < |rows1| { assert FindOpen(rows1, key, 0) == Some(i); }
    } else if i < |rows1| && rows1[i].open {
      ShownByLast(rows, before, i);
    }
  }

  /** A row that is new has the severity of the calls on its key. */
  lemma {:induction false} NewRowSeverity(rows: seq<Alert>, calls: seq<Call>, i: nat, severity: Severity)
    requires |rows| <= i < |ApplyAll(rows, calls)|
    requires forall j :: 0 <= j < |calls| && calls[j].Set? && calls[j].key == ApplyAll(rows, calls)[i].key ==>
               calls[j].severity == severity
    ensures ApplyAll(rows, calls)[i].severity == severity
    decreases |calls|
  {
    var before, last := calls[..|calls| - 1], calls[|calls| - 1];
    var rows1 := ApplyAll(rows, before);
    assert ApplyAll(rows, calls) == Apply(rows1, last) && last == calls[|calls| - 1];
    hide ApplyAll;
    if i < |rows1| {
      assert forall j :: 0 <= j < |before| ==> before[j] == calls[j];
      NewRowSeverity(rows, before, i, severity);
    }
  }

  lemma RateShown(sample: Sample, previous: Option<Sample>, rules: Rules, a: Axis)
    requires Turned(sample, previous, rules, a)
    ensures var rate := RateCall(sample, previous, rules, a).details.observed;
            var minutes, d := (sample.timestamp - previous.value.timestamp) as real / 60.0,
                              sample.degrees[a] - previous.value.degrees[a];
            rate.Some? && rate.value >= 0.0 && (rate.value * minutes == d || rate.value * minutes == -d)
  {
    RateReaches(sample.degrees[a] - previous.value.degrees[a], sample.timestamp - previous.value.timestamp,
                rules.ratePerMinute.value);
    hide PerMinute;
  }

  lemma SampleSeverity(sample: Sample, previous: Option<Sample>, rules: Rules, key: Key, j: nat)
    requires j < 7 && SampleCalls(sample, previous, rules)[j].key == key
    ensures SampleCalls(sample, previous, rules)[j].severity == if key.rule.SensorError? then Critical else Warning
  {
    hide AtLeast, RateOf;
  }

  /** What the open rows of a sample's rules show: the size of the tilt or of the rate, or the error
      code, with the limit and the time of the sample; and how severe a new one is. */
  lemma SampleShows(rows: seq<Alert>, sample: Sample, previous: Option<Sample>, rules: Rules, i: nat)
    requires OneOpen(rows) && i < |ApplyAll(rows, SampleCalls(sample, previous, rules))|
    requires var row := ApplyAll(rows, SampleCalls(sample, previous, rules))[i];
             row.open && row.key.nodeId == sample.nodeId && !row.key.rule.LowBattery? && !row.key.rule.MissingData?
    ensures var row := ApplyAll(rows, SampleCalls(sample, previous, rules))[i];
            && row.details.sampleTimestamp == sample.timestamp
            && (i >= |rows| ==> row.severity == if row.key.rule.SensorError? then Critical else Warning)
            && match row.key.rule
               case Absolute(a) =>
                 && Tilted(sample, rules, a) && row.details.threshold == Some(rules.absolute[a])
                 && row.details.observed.Some? && row.details.observed.value >= 0.0
                 && (row.details.observed.value == sample.degrees[a]
                     || row.details.observed.value == -sample.degrees[a])
               case Rate(a) =>
                 && Turned(sample, previous, rules, a) && row.details.threshold == rules.ratePerMinute
                 && row.details.observed.Some?
                 && var minutes, d := (sample.timestamp - previous.value.timestamp) as real / 60.0,
                                      sample.degrees[a] - previous.value.degrees[a];
                    row.details.observed.value >= 0.0
                    && (row.details.observed.value * minutes == d || row.details.observed.value * minutes == -d)
               case _ =>
                 sample.errorCode.Some? && row.details.observed == Some(sample.errorCode.value as real)
                 && row.details.threshold == Some(0.0)
  {
    var calls := SampleCalls(sample, previous, rules);
    var row := ApplyAll(rows, calls)[i];
    assert IsOpen(ApplyAll(rows, calls), row.key) && |calls| == 7;
    hide ApplyAll, OneOpen, IsOpen, LastCall, SampleCalls, AtLeast, RateOf;
    CallOnRule(sample, previous, rules, row.key);
    CallsOnOneKey(rows, calls, row.key);
    ShownByLast(rows, calls, i);
    if i >= |rows| {
      var severity := if row.key.rule.SensorError? then Critical else Warning;
      forall j | 0 <= j < |calls| && calls[j].Set? && calls[j].key == row.key ensures calls[j].severity == severity {
        SampleSeverity(sample, previous, rules, row.key, j);
      }
      NewRowSeverity(rows, calls, i, severity);
    }
    match row.key.rule {
      case Absolute(a) => TiltIsActive(sample, rules, a);
      case Rate(a) =>
        RateIsActive(sample, previous, rules, a);
        RateShown(sample, previous, rules, a);
      case _ =>
    }
  }
}
