/** Applying a restore plan to a device, and undoing it (tools/device_service.py). */
module Restore {
  import opened Common
  import opened WriteEncoders
  import opened ConfigDiff
  import opened RestorePlan

  /** What a write of this body asks for. */
  function Obeyed(v: Values, name: OpName, response: seq<byte>): Values {
    var d := Decoded(name, response);
    if d.Some? then v.Set(name, d.value) else v
  }

  lemma SameEverywhere(a: Values, b: Values)
    requires forall n: OpName :: a.Get(n) == b.Get(n)
    ensures a == b
  {
    assert a.Get(Sampling) == b.Get(Sampling) && a.Get(Channels) == b.Get(Channels);
    assert a.Get(SlotTime) == b.Get(SlotTime);
  }

  /** The three values of a device, and how many steps it has taken. */
  datatype DeviceState = DeviceState(values: Values, step: nat) {
    function Next(): DeviceState {
      this.(step := step + 1)
    }
  }

  /** What happens in one step: whether it succeeds; for a write what it leaves in its field, if
      anything; for a backup the configuration it reports, which may differ in headers. */
  datatype Fate = Fate(ok: bool, takes: Option<Json>, config: Config)

  type Schedule = nat -> Fate

  /** A write touches only its own field, but an acknowledged one may leave any value there, and an
      unacknowledged one may or may not have taken effect. */
  function Written(d: DeviceState, name: OpName, fate: Fate): DeviceState {
    d.Next().(values := if fate.takes.Some? then d.values.Set(name, fate.takes.value) else d.values)
  }

  /** What a backup reports: the truth, headers aside. */
  function Reported(base: Config, values: Values, fate: Fate): (c: Config)
    requires Shaped(base)
    ensures Plain(c) == Plain(WithValues(base, values))
  {
    if Plain(fate.config) == Plain(WithValues(base, values)) then fate.config else WithValues(base, values)
  }

  function BackupOf(schedule: Schedule, id: DeviceId, base: Config, d: DeviceState): (r: Option<Snapshot>)
    requires Shaped(base)
    ensures r.Some? ==> Plain(r.value.config) == Plain(WithValues(base, d.values))
  {
    hide Plain, WithValues;
    if schedule(d.step).ok then Some(Snapshot(id, Reported(base, d.values, schedule(d.step)))) else None
  }

  /** A device that may fail at any step.  Reads and backups fail or tell the truth. */
  class Device {
    const id: DeviceId
    /** The configuration outside the three restorable fields. */
    const base: Config
    /** The response header in front of a repeated body. */
    const header: seq<byte>
    /** What happens in every step, in order. */
    const schedule: Schedule
    var values: Values
    var step: nat
    /** The bodies of all writes, in order. */
    ghost var sent: seq<seq<byte>>
    /** Unacknowledged writes that changed something. */
    ghost var strays: nat
    /** Failed steps, and acknowledged writes that were not obeyed. */
    ghost var faults: nat

    constructor (id: DeviceId, base: Config, header: seq<byte>, schedule: Schedule, values: Values)
      requires Shaped(base) && HeaderStart(header)
      ensures this.id == id && Valid() && this.values == values && this.base == base && this.schedule == schedule
      ensures step == 0 && sent == [] && strays == 0 && faults == 0
    {
      this.id, this.base, this.header, this.schedule, this.values := id, base, header, schedule, values;
      step, sent, strays, faults := 0, [], 0, 0;
    }

    ghost predicate Valid() {
      Shaped(base) && HeaderStart(header)
    }

    function State(): DeviceState
      reads `values, `step
    {
      DeviceState(values, step)
    }

    function Configuration(): Config
      requires Valid()
      reads `values
    {
      WithValues(base, values)
    }

    method Open() returns (ok: bool)
      modifies `step, `faults
      ensures ok == schedule(old(step)).ok && step == old(step) + 1
      ensures faults == old(faults) + if ok then 0 else 1
    {
      ok := schedule(step).ok;
      step := step + 1;
      faults := faults + if ok then 0 else 1;
    }

    method Write(name: OpName, body: seq<byte>) returns (acked: bool)
      modifies this
      ensures sent == old(sent) + [body]
      ensures acked == schedule(old(step)).ok && State() == Written(old(State()), name, schedule(old(step)))
      ensures forall n: OpName :: n != name ==> values.Get(n) == old(values).Get(n)
      ensures strays == old(strays) + if !acked && values != old(values) then 1 else 0
      ensures faults == old(faults) + if acked && values == Obeyed(old(values), name, header + body) then 0 else 1
    {
      hide Obeyed;
      var fate := schedule(step);
      ghost var before := values;
      acked := fate.ok;
      values := Written(State(), name, fate).values;
      step := step + 1;
      sent := sent + [body];
      strays := strays + if !acked && values != before then 1 else 0;
      faults := faults + if acked && values == Obeyed(before, name, header + body) then 0 else 1;
    }

    method Read(name: OpName) returns (r: Option<Json>)
      modifies `step, `faults
      ensures r == (if schedule(old(step)).ok then Some(values.Get(name)) else None) && step == old(step) + 1
      ensures faults == old(faults) + if r.Some? then 0 else 1
    {
      r := if schedule(step).ok then Some(values.Get(name)) else None;
      step := step + 1;
      faults := faults + if r.Some? then 0 else 1;
    }

    method Backup() returns (r: Option<Snapshot>)
      requires Valid()
      modifies `step, `faults
      ensures r == BackupOf(schedule, id, base, old(State())) && step == old(step) + 1
      ensures r.Some? ==> r.value.device == id && Plain(r.value.config) == Plain(Configuration())
      ensures faults == old(faults) + if r.Some? then 0 else 1
    {
      hide Plain, WithValues;
      r := BackupOf(schedule, id, base, State());
      step := step + 1;
      faults := faults + if r.Some? then 0 else 1;
    }
  }

  datatype RollbackError = Mismatch(name: OpName) | Interrupted

  datatype Outcome = Refused | Restored(post: Snapshot) | Failed(rollbackErrors: seq<RollbackError>)

  function OpNames(operations: seq<Operation>): (names: seq<OpName>)
    ensures |names| == |operations|
  {
    seq(|operations|, i requires 0 <= i < |operations| => operations[i].name)
  }

  function Bodies(operations: seq<Operation>): (bodies: seq<seq<byte>>)
    ensures |bodies| == |operations|
  {
    seq(|operations|, i requires 0 <= i < |operations| => operations[i].body)
  }

  /** The writes that undo `applied`: the old values, last field first. */
  function UndoBodies(applied: seq<OpName>, before: Values): seq<seq<byte>> {
    if applied == [] then []
    else
      var body := Encode(applied[0], before.Get(applied[0]));
      UndoBodies(applied[1..], before) + if body.Success? then [body.value] else []
  }

  predicate Distinct(names: seq<OpName>) {
    forall i, j :: 0 <= i < j < |names| ==> names[i] != names[j]
  }

  /** The operations of a plan towards `target`. */
  predicate Planned(operations: seq<Operation>, target: Values) {
    && Distinct(OpNames(operations))
    && forall i :: 0 <= i < |operations| ==>
         && operations[i].target == target.Get(operations[i].name)
         && Encode(operations[i].name, operations[i].target) == Success(operations[i].body)
  }

  lemma ObeyedSets(h: seq<byte>, v: Values, name: OpName, j: Json)
    requires HeaderStart(h) && Encode(name, j).Success?
    ensures Obeyed(v, name, h + Encode(name, j).value) == v.Set(name, j) && v.Set(name, j).Get(name) == j
  {
    BodyDecodes(h, name, j);
    hide Decoded, Encode;
  }

  lemma ReplayOneMore(v: Values, operations: seq<Operation>, i: nat)
    requires i < |operations|
    ensures Replay(v, operations[..i + 1])
            == Replay(v, operations[..i]).Set(operations[i].name, operations[i].target)
  {
    assert operations[..i + 1] == operations[..i] + [operations[i]];
    ReplayConcat(v, operations[..i], [operations[i]]);
    assert [operations[i]][1..] == [];
  }

  // ---------------------------------------------------------------- runs under a schedule

  /** How one write ends: read back as wanted, acknowledged but not read back as wanted, or not
      acknowledged; or there was no body to write. */
  datatype WriteEnd = Good | Bad(readback: bool) | Unacknowledged | NoBody

  /** One write and its readback. */
  function WrittenOnce(schedule: Schedule, d: DeviceState, name: OpName, value: Json): (WriteEnd, DeviceState) {
    var d1 := Written(d, name, schedule(d.step));
    if Encode(name, value).Failure? then (NoBody, d)
    else if !schedule(d.step).ok then (Unacknowledged, d1)
    else if !schedule(d1.step).ok then (Bad(false), d1.Next())
    else if d1.values.Get(name) != value then (Bad(true), d1.Next())
    else (Good, d1.Next())
  }

  /** Whether all went well, how many operations were acknowledged, and what became of the device. */
  function WrittenFrom(schedule: Schedule, d: DeviceState, operations: seq<Operation>, i: nat)
    : (r: (bool, nat, DeviceState))
    requires i <= |operations|
    ensures r.1 <= |operations|
    decreases |operations| - i
  {
    if i == |operations| then (true, i, d)
    else
      var (end, d1) := WrittenOnce(schedule, d, operations[i].name, operations[i].target);
      match end
      case Good => WrittenFrom(schedule, d1, operations, i + 1)
      case Bad(_) => (false, i + 1, d1)
      case _ => (false, i, d1)
  }

  function AllWritten(schedule: Schedule, d: DeviceState, operations: seq<Operation>): (r: (bool, nat, DeviceState))
    ensures r.1 <= |operations|
  {
    if !schedule(d.step).ok then (false, 0, d.Next()) else WrittenFrom(schedule, d.Next(), operations, 0)
  }

  function UndoneFrom(schedule: Schedule, d: DeviceState, applied: seq<OpName>, before: Values, i: nat,
                      errors: seq<RollbackError>): (seq<RollbackError>, DeviceState)
    requires i <= |applied|
    decreases i
  {
    if i == 0 then (errors, d)
    else
      var (end, d1) := WrittenOnce(schedule, d, applied[i - 1], before.Get(applied[i - 1]));
      match end
      case Good => UndoneFrom(schedule, d1, applied, before, i - 1, errors)
      case Bad(true) => UndoneFrom(schedule, d1, applied, before, i - 1, errors + [Mismatch(applied[i - 1])])
      case _ => (errors + [Interrupted], d1)
  }

  lemma UndoOnce(schedule: Schedule, d: DeviceState, applied: seq<OpName>, before: Values, i: nat,
                 errors: seq<RollbackError>)
    requires 0 < i <= |applied|
    ensures var (end, d1) := WrittenOnce(schedule, d, applied[i - 1], before.Get(applied[i - 1]));
            UndoneFrom(schedule, d, applied, before, i, errors) ==
              if end.Good? then UndoneFrom(schedule, d1, applied, before, i - 1, errors)
              else if end == Bad(true) then
                UndoneFrom(schedule, d1, applied, before, i - 1, errors + [Mismatch(applied[i - 1])])
              else (errors + [Interrupted], d1)
  {
    hide WrittenOnce, Values.Get;
  }

  function RolledBack(schedule: Schedule, d: DeviceState, applied: seq<OpName>, before: Values)
    : (seq<RollbackError>, DeviceState)
  {
    if applied == [] then ([], d)
    else if !schedule(d.step).ok then ([Interrupted], d.Next())
    else UndoneFrom(schedule, d.Next(), applied, before, |applied|, [])
  }

  /** The writes, the second backup and the comparison: the backup if all is well. */
  function TriedRun(schedule: Schedule, id: DeviceId, base: Config, d: DeviceState, target: Snapshot,
                    operations: seq<Operation>): (r: (Option<Snapshot>, nat, DeviceState))
    requires Shaped(base)
    ensures r.1 <= |operations|
  {
    var (ok, n, d1) := AllWritten(schedule, d, operations);
    if !ok then (None, n, d1)
    else
      var post := BackupOf(schedule, id, base, d1);
      (if post.Some? && Valid(post.value) && DiffSnapshots(post.value, target) == [] then post else None, n, d1.Next())
  }

  /** The same, and the rollback if it comes to that. */
  function TransactionRun(schedule: Schedule, id: DeviceId, base: Config, d: DeviceState, target: Snapshot,
                          operations: seq<Operation>, before: Values): (Outcome, DeviceState)
    requires Shaped(base)
  {
    var (post, n, d1) := TriedRun(schedule, id, base, d, target, operations);
    if post.Some? then (Restored(post.value), d1)
    else
      var (errors, d2) := RolledBack(schedule, d1, OpNames(operations)[..n], before);
      (Failed(errors), d2)
  }

  /** A whole restore. */
  function RestoreRun(schedule: Schedule, id: DeviceId, base: Config, d: DeviceState, target: Snapshot,
                      confirmation: int, writesEnabled: bool, validated: set<OpName>): (Outcome, DeviceState)
    requires Shaped(base)
  {
    if !Valid(target) || !writesEnabled then (Refused, d)
    else
      var first := BackupOf(schedule, id, base, d);
      if first.None? then (Refused, d.Next())
      else
        var built := BuildRestorePlan(first.value, target, validated);
        if built.Failure? || confirmation != built.value.confirmNode || !built.value.canApply then (Refused, d.Next())
        else
          PlanParts(first.value, target, validated);
          TransactionRun(schedule, id, base, d.Next(), target, built.value.operations, ValuesOf(first.value.config))
  }

  lemma NoneLeft(schedule: Schedule, d: DeviceState, applied: seq<OpName>, before: Values, errors: seq<RollbackError>)
    ensures UndoneFrom(schedule, d, applied, before, 0, errors) == (errors, d) && applied[0..] == applied
  {
  }

  lemma TriedIs(schedule: Schedule, id: DeviceId, base: Config, d: DeviceState, target: Snapshot,
                operations: seq<Operation>, ok: bool, n: nat, d1: DeviceState)
    requires Shaped(base) && (ok, n, d1) == AllWritten(schedule, d, operations)
    ensures !ok ==> TriedRun(schedule, id, base, d, target, operations) == (None, n, d1)
    ensures var post := BackupOf(schedule, id, base, d1);
            ok ==> TriedRun(schedule, id, base, d, target, operations) ==
                   (if post.Some? && Valid(post.value) && DiffSnapshots(post.value, target) == [] then post else None,
                    n, d1.Next())
  {
    hide AllWritten, BackupOf, Valid, DiffSnapshots;
  }

  /** The fields that are not in `applied` have their old values. */
  ghost predicate KeptOutside(applied: seq<OpName>, v: Values, v0: Values) {
    forall n: OpName :: n !in applied ==> v.Get(n) == v0.Get(n)
  }

  /** The fields from `applied[i]` on have their values of before. */
  ghost predicate BackFrom(applied: seq<OpName>, v: Values, before: Values, i: nat) {
    forall j :: i <= j < |applied| ==> v.Get(applied[j]) == before.Get(applied[j])
  }

  ghost predicate WritableFrom(applied: seq<OpName>, before: Values, i: nat) {
    forall j :: i <= j < |applied| ==> Encode(applied[j], before.Get(applied[j])).Success?
  }

  lemma AllBack(applied: seq<OpName>, v: Values, before: Values)
    ensures BackFrom(applied, v, before, 0) <==> forall n: OpName :: n in applied ==> v.Get(n) == before.Get(n)
    ensures WritableFrom(applied, before, 0) <==> forall n: OpName :: n in applied ==> Encode(n, before.Get(n)).Success?
    ensures WritableFrom(applied, before, |applied|) && BackFrom(applied, v, before, |applied|)
  {
    hide Encode, Values.Get;
  }

  /** Where a rollback stands with the fields before `applied[i]` still to be written: none but the
      applied fields have changed, and as long as it is clean the later ones are back, in reverse. */
  ghost predicate Underway(applied: seq<OpName>, before: Values, v: Values, v0: Values,
                           sent: seq<seq<byte>>, sent0: seq<seq<byte>>, i: nat, clean: bool)
    requires i <= |applied|
  {
    && KeptOutside(applied, v, v0) && WritableFrom(applied, before, i)
    && (clean ==> BackFrom(applied, v, before, i) && sent == sent0 + UndoBodies(applied[i..], before))
  }

  lemma NothingUndone(applied: seq<OpName>, before: Values, v: Values, sent: seq<seq<byte>>)
    ensures Underway(applied, before, v, v, sent, sent, |applied|, true)
    ensures KeptOutside(applied, v, v)
    ensures applied == [] ==>
              UndoBodies(applied, before) == [] && BackFrom(applied, v, before, 0) && WritableFrom(applied, before, 0)
  {
    assert applied[|applied|..] == [] && sent + [] == sent;
    hide Encode, Values.Get;
  }

  /** One field has been written, or had no body to write. */
  lemma OneMoreUndone(applied: seq<OpName>, before: Values, v: Values, v': Values, v0: Values,
                      sent: seq<seq<byte>>, sent': seq<seq<byte>>, sent0: seq<seq<byte>>, i: nat, clean: bool)
    requires i < |applied| && Underway(applied, before, v, v0, sent, sent0, i + 1, clean)
    requires forall n: OpName :: n != applied[i] ==> v'.Get(n) == v.Get(n)
    ensures KeptOutside(applied, v', v0)
    ensures var body := Encode(applied[i], before.Get(applied[i]));
            && (body.Failure? ==> !WritableFrom(applied, before, 0))
            && (body.Success? && sent' == sent + [body.value] ==>
                  Underway(applied, before, v', v0, sent', sent0, i,
                           clean && v'.Get(applied[i]) == before.Get(applied[i])))
  {
    assert applied[i..][0] == applied[i] && applied[i..][1..] == applied[i + 1..];
    hide Encode, Values.Get;
  }

  lemma AllUndone(applied: seq<OpName>, before: Values, v: Values, v0: Values,
                  sent: seq<seq<byte>>, sent0: seq<seq<byte>>, clean: bool)
    requires Underway(applied, before, v, v0, sent, sent0, 0, clean)
    ensures KeptOutside(applied, v, v0) && WritableFrom(applied, before, 0)
    ensures clean ==> BackFrom(applied, v, before, 0) && sent == sent0 + UndoBodies(applied, before)
  {
    assert applied[0..] == applied;
  }

  lemma PlainDeterminesValues(c: Config, base: Config, v: Values)
    requires ValidConfig(c) && Shaped(base) && Plain(c) == Plain(WithValues(base, v))
    ensures ValuesOf(c) == v
  {
    var w := WithValues(base, v);
    WithValuesLaws(base, v);
    PlainFields(c, w, "sampling");
    PlainFields(c, w, "radio_slot_time");
    PlainFields(c, w, "channels");
    hide Plain;
    var a, b := c["channels"].fields, w["channels"].fields;
    assert a - {"header"} == b - {"header"};
    assert "enabled" in a - {"header"} && (a - {"header"})["enabled"] == a["enabled"];
    assert (b - {"header"})["enabled"] == b["enabled"];
  }

  lemma SameValues(current: Snapshot, target: Snapshot, validated: set<OpName>, base: Config, v: Values)
    requires Valid(current) && Valid(target) && Shaped(base) && Plain(current.config) == Plain(WithValues(base, v))
    ensures Shaped(current.config) && Shaped(target.config) && ValuesOf(current.config) == v
  {
    assert ValidConfig(current.config) && ValidConfig(target.config);
    hide Plain, WithValues, ValuesOf;
    PlainDeterminesValues(current.config, base, v);
  }

  lemma AllTaken(bodies: seq<seq<byte>>)
    ensures bodies[..|bodies|] == bodies
  {
  }

  lemma UndoneUnlessStray(v: Values, v1: Values, v0: Values, applied: seq<OpName>)
    requires BackFrom(applied, v, v0, 0) && KeptOutside(applied, v, v1)
    ensures v == v0 <==> KeptOutside(applied, v1, v0)
  {
    AllBack(applied, v, v0);
    hide Values.Get, BackFrom;
    if KeptOutside(applied, v1, v0) {
      forall n: OpName ensures v.Get(n) == v0.Get(n) {
      }
      SameEverywhere(v, v0);
    }
  }

  lemma ZeroIsNotWritten(v: Values)
    requires Encode(SlotTime, v.Get(SlotTime)).Success?
    ensures v.slotTime != Num(0)
  {
  }

  lemma MatchMeansNoDifference(post: Snapshot, target: Snapshot, config: Config)
    requires Plain(post.config) == Plain(config) && DiffSnapshots(post, target) == []
    ensures WalkDiff(Plain(config), Plain(target.config), []) == []
  {
  }

  lemma ReplacedIsValid(c: Config, t: Config)
    requires ValidConfig(c) && ValidConfig(t)
    ensures ValidConfig(WithValues(c, ValuesOf(t)))
  {
    hide IsAxes, AnyAxis, NumIn, AxesOf;
    var r := WithValues(c, ValuesOf(t));
    assert r.Keys == c.Keys;
  }

  lemma ValidParts(s: Snapshot)
    requires ValidDevice(s.device) && ValidConfig(s.config)
    ensures Valid(s)
  {
  }

  lemma DiffOfPlain(post: Snapshot, target: Snapshot)
    ensures DiffSnapshots(post, target) == WalkDiff(Plain(post.config), Plain(target.config), [])
  {
  }

  lemma SameBaseSamePlain(c: Config, base: Config, v0: Values, v: Values)
    requires Shaped(c) && Shaped(base) && Plain(c) == Plain(WithValues(base, v0))
    ensures Plain(WithValues(c, v)) == Plain(WithValues(base, v))
  {
    var w0, w, r := WithValues(base, v0), WithValues(base, v), WithValues(c, v);
    assert Plain(c).fields == Plain(w0).fields;
    assert c.Keys == Plain(c).fields.Keys && w0.Keys == Plain(w0).fields.Keys;
    forall k ensures k in r <==> k in w
             ensures k in r ==> WithoutHeader(r[k]) == WithoutHeader(w[k])
    {
      PlainFields(c, w0, k);
      hide Plain;
      if k == "channels" {
        var a, b := c[k].fields, base[k].fields;
        assert a - {"header"} == b["enabled" := v0.enabled] - {"header"};
        assert a["enabled" := v.enabled] - {"header"} == b["enabled" := v.enabled] - {"header"} by {
          assert forall f :: f != "header" && f != "enabled" ==>
                   (f in a <==> f in a - {"header"}) && (f in b <==> f in b["enabled" := v0.enabled] - {"header"});
        }
      }
    }
    assert Plain(r).fields == Plain(w).fields;
  }

  /** Headers do not matter to validity. */
  lemma ValidSeenPlain(c: Config, t: Config)
    requires ValidConfig(t) && Plain(c) == Plain(t)
    ensures ValidConfig(c)
  {
    assert Plain(c).fields == Plain(t).fields;
    assert c.Keys == Plain(c).fields.Keys && t.Keys == Plain(t).fields.Keys;
    PlainFields(c, t, "sampling");
    PlainFields(c, t, "radio_slot_time");
    PlainFields(c, t, "channels");
    hide Plain, IsAxes, AnyAxis, AxesOf;
    var a, b := c["channels"].fields, t["channels"].fields;
    assert a - {"header"} == b - {"header"};
    assert "enabled" in b - {"header"} && (b - {"header"})["enabled"] == b["enabled"];
    assert (a - {"header"})["enabled"] == a["enabled"];
  }

  /** If every operation of an applicable plan is obeyed, the next truthful backup is valid, and it
      has no difference to the target if and only if no namesake of "enabled" differed. */
  lemma FaultlessMatches(current: Snapshot, target: Snapshot, validated: set<OpName>, base: Config, v0: Values,
                         post: Snapshot)
    requires BuildRestorePlan(current, target, validated).Success?
    requires BuildRestorePlan(current, target, validated).value.canApply
    requires Shaped(base) && Shaped(current.config) && Shaped(target.config)
    requires Plain(current.config) == Plain(WithValues(base, v0)) && ValuesOf(current.config) == v0
    requires var v := Replay(v0, BuildRestorePlan(current, target, validated).value.operations);
             post.device == current.device && Plain(post.config) == Plain(WithValues(base, v))
    ensures Valid(post) && (DiffSnapshots(post, target) == [] <==> AgreeOnNamesakes(current.config, target.config))
  {
    PlanParts(current, target, validated);
    assert ValidDevice(current.device) && ValidConfig(current.config) && ValidConfig(target.config);
    hide *;
    var v := Replay(v0, BuildRestorePlan(current, target, validated).value.operations);
    ReplayReachesTarget(current, target, validated);
    SameBaseSamePlain(current.config, base, v0, v);
    PlanSuffices(current, target, validated);
    ReplacedIsValid(current.config, target.config);
    ValidSeenPlain(post.config, WithValues(current.config, v));
    ValidParts(post);
    DiffOfPlain(post, target);
  }

  lemma PlanIsPlanned(current: Snapshot, target: Snapshot, validated: set<OpName>)
    requires BuildRestorePlan(current, target, validated).Success?
    ensures Planned(BuildRestorePlan(current, target, validated).value.operations, ValuesOf(target.config))
  {
    var c, t := ValuesOf(current.config), ValuesOf(target.config);
    var s, a, l := PlanField(Sampling, c, t), PlanField(Channels, c, t), PlanField(SlotTime, c, t);
    assert BuildRestorePlan(current, target, validated).value.operations == s.value + a.value + l.value;
    hide BuildRestorePlan, ValuesOf, Encode, Values.Get;
  }

  lemma WritesAreValidated(current: Snapshot, target: Snapshot, validated: set<OpName>)
    requires BuildRestorePlan(current, target, validated).Success?
    requires BuildRestorePlan(current, target, validated).value.canApply
    ensures Shaped(current.config) && Shaped(target.config) && current.device == target.device
    ensures BuildRestorePlan(current, target, validated).value.confirmNode == current.device.nodeId
    ensures forall name :: name in Wanted(ValuesOf(current.config), ValuesOf(target.config)) ==> name in validated
    ensures ValuesOf(current.config) != ValuesOf(target.config)
  {
    PlanParts(current, target, validated);
    PlanExistsIff(current, target, validated);
    PlansWhatDiffers(current, target, validated);
    OperationsEmptyIff(current, target, validated);
    var operations := BuildRestorePlan(current, target, validated).value.operations;
    var wanted := Wanted(ValuesOf(current.config), ValuesOf(target.config));
    assert ValidConfig(current.config) && ValidConfig(target.config);
    hide *;
    forall name | name in wanted ensures name in validated {
      var i :| 0 <= i < |wanted| && wanted[i] == name;
      assert operations[i] in operations;
    }
  }

  lemma PlanIsDistinct(current: Snapshot, target: Snapshot, validated: set<OpName>)
    requires BuildRestorePlan(current, target, validated).Success?
    ensures Distinct(OpNames(BuildRestorePlan(current, target, validated).value.operations))
  {
    PlanIsPlanned(current, target, validated);
    hide BuildRestorePlan, Distinct, OpNames, Encode, Values.Get, ValuesOf;
  }

  lemma FreshName(names: seq<OpName>, i: nat)
    requires Distinct(names) && i < |names|
    ensures names[i] !in names[..i]
  {
  }

  lemma SameUnless(a: Values, b: Values, name: OpName)
    requires a != b && forall n: OpName :: n != name ==> a.Get(n) == b.Get(n)
    ensures a.Get(name) != b.Get(name)
  {
    if a.Get(name) == b.Get(name) { SameEverywhere(a, b); }
  }

  lemma SameUnlessSet(a: Values, b: Values, name: OpName, v: Json)
    requires a.Get(name) == v && forall n: OpName :: n != name ==> a.Get(n) == b.Get(n)
    ensures a == b.Set(name, v)
  {
    SameEverywhere(a, b.Set(name, v));
  }

  // ---------------------------------------------------------------- what a failed run leaves

  lemma OnceTouches(schedule: Schedule, d: DeviceState, name: OpName, value: Json)
    ensures var (end, d1) := WrittenOnce(schedule, d, name, value);
            && (forall n: OpName :: n != name ==> d1.values.Get(n) == d.values.Get(n))
            && (end.Good? ==> d1.values.Get(name) == value) && (end == Bad(true) ==> d1.values.Get(name) != value)
            && (end.Unacknowledged? ==>
                  var takes := schedule(d.step).takes;
                  d1.values.Get(name) == if takes.Some? then takes.value else d.values.Get(name))
            && (end.NoBody? ==> d1.values == d.values)
  {
    hide Encode;
  }

  /** The write on which the run gives up is not acknowledged, and takes effect all the same: it
      leaves another value in its field. */
  ghost predicate StraysFrom(schedule: Schedule, d: DeviceState, operations: seq<Operation>, i: nat)
    requires i <= |operations|
    decreases |operations| - i
  {
    i < |operations| &&
    var op := operations[i];
    var (end, d1) := WrittenOnce(schedule, d, op.name, op.target);
    match end
    case Good => StraysFrom(schedule, d1, operations, i + 1)
    case Unacknowledged =>
      schedule(d.step).takes.Some? && schedule(d.step).takes.value != d.values.Get(op.name)
    case _ => false
  }

  ghost predicate Strays(schedule: Schedule, d: DeviceState, operations: seq<Operation>) {
    schedule(d.step).ok && StraysFrom(schedule, d.Next(), operations, 0)
  }

  /** One write after `names` have been written. */
  lemma KeptOneMore(names: seq<OpName>, i: nat, v: Values, v': Values, v0: Values)
    requires Distinct(names) && i < |names| && KeptOutside(names[..i], v, v0)
    requires forall n: OpName :: n != names[i] ==> v'.Get(n) == v.Get(n)
    ensures KeptOutside(names[..i + 1], v', v0)
    ensures KeptOutside(names[..i], v', v0) <==> v'.Get(names[i]) == v.Get(names[i])
  {
    FreshName(names, i);
    assert names[..i + 1] == names[..i] + [names[i]];
    hide Values.Get;
  }

  /** The fields that were not recorded keep their values unless the last write went astray. */
  lemma {:induction false} WrittenKeepsIff(schedule: Schedule, d: DeviceState, operations: seq<Operation>, i: nat,
                                           v0: Values)
    requires i <= |operations| && Distinct(OpNames(operations))
    requires KeptOutside(OpNames(operations)[..i], d.values, v0)
    ensures var (ok, n, d1) := WrittenFrom(schedule, d, operations, i);
            KeptOutside(OpNames(operations)[..n], d1.values, v0) <==> !StraysFrom(schedule, d, operations, i)
    decreases |operations| - i
  {
    assert i < |operations| ==> operations[i].name == OpNames(operations)[i];
    hide WrittenOnce, KeptOutside, Values.Get, OpNames;
    if i < |operations| {
      var (end, d1) := WrittenOnce(schedule, d, operations[i].name, operations[i].target);
      OnceTouches(schedule, d, operations[i].name, operations[i].target);
      KeptOneMore(OpNames(operations), i, d.values, d1.values, v0);
      if end.Good? { WrittenKeepsIff(schedule, d1, operations, i + 1, v0); }
    }
  }

  /** A loop of a rollback without an error has put the fields back and touched no others. */
  lemma {:induction false} UndoneFromBack(schedule: Schedule, d: DeviceState, applied: seq<OpName>, before: Values,
                                          i: nat, errors: seq<RollbackError>)
    requires i <= |applied| && UndoneFrom(schedule, d, applied, before, i, errors).0 == []
    requires errors == [] ==> BackFrom(applied, d.values, before, i)
    ensures errors == []
    ensures BackFrom(applied, UndoneFrom(schedule, d, applied, before, i, errors).1.values, before, 0)
    ensures KeptOutside(applied, UndoneFrom(schedule, d, applied, before, i, errors).1.values, d.values)
    decreases i
  {
    hide WrittenOnce, Values.Get;
    if i > 0 {
      var name := applied[i - 1];
      var (end, d1) := WrittenOnce(schedule, d, name, before.Get(name));
      UndoOnce(schedule, d, applied, before, i, errors);
      OnceTouches(schedule, d, name, before.Get(name));
      UndoneFromBack(schedule, d1, applied, before, i - 1, if end.Good? then errors else errors + [Mismatch(name)]);
    }
  }

  /** The errors of a rollback loop that is not interrupted: one for each field it has not put back. */
  ghost predicate Reports(es: seq<RollbackError>, errors: seq<RollbackError>, names: seq<OpName>, v: Values,
                          before: Values) {
    forall n: OpName :: Mismatch(n) in es <==> Mismatch(n) in errors || (n in names && v.Get(n) != before.Get(n))
  }

  lemma ReportsOneMore(es: seq<RollbackError>, errors: seq<RollbackError>, names: seq<OpName>, i: nat, v: Values,
                       before: Values, off: bool)
    requires Distinct(names) && i < |names| && (off <==> v.Get(names[i]) != before.Get(names[i]))
    requires Reports(es, if off then errors + [Mismatch(names[i])] else errors, names[..i], v, before)
    ensures Reports(es, errors, names[..i + 1], v, before)
  {
    FreshName(names, i);
    assert names[..i + 1] == names[..i] + [names[i]];
    hide Values.Get;
  }

  lemma {:induction false} UndoneFromReports(schedule: Schedule, d: DeviceState, applied: seq<OpName>, before: Values,
                                             i: nat, errors: seq<RollbackError>)
    requires i <= |applied| && Distinct(applied)
    ensures var (es, d') := UndoneFrom(schedule, d, applied, before, i, errors);
            && KeptOutside(applied[..i], d'.values, d.values)
            && (Interrupted !in es ==> Reports(es, errors, applied[..i], d'.values, before))
    decreases i
  {
    hide WrittenOnce, Values.Get, Distinct;
    if i > 0 {
      var name := applied[i - 1];
      var (end, d1) := WrittenOnce(schedule, d, name, before.Get(name));
      var (es, d') := UndoneFrom(schedule, d, applied, before, i, errors);
      UndoOnce(schedule, d, applied, before, i, errors);
      OnceTouches(schedule, d, name, before.Get(name));
      FreshName(applied, i - 1);
      assert applied[..i] == applied[..i - 1] + [name];
      hide UndoneFrom;
      if end.Good? || end == Bad(true) {
        var more := if end.Good? then errors else errors + [Mismatch(name)];
        UndoneFromReports(schedule, d1, applied, before, i - 1, more);
        if Interrupted !in es { ReportsOneMore(es, errors, applied, i - 1, d'.values, before, end == Bad(true)); }
      }
    }
  }

  /** A rollback that runs to its end reports exactly the fields that do not have their old values. */
  lemma RollbackReportsWhatIsOff(schedule: Schedule, d: DeviceState, applied: seq<OpName>, before: Values)
    requires Distinct(applied)
    ensures var (es, d') := RolledBack(schedule, d, applied, before);
            Interrupted !in es ==>
              forall n: OpName :: Mismatch(n) in es <==> n in applied && d'.values.Get(n) != before.Get(n)
  {
    UndoneFromReports(schedule, d.Next(), applied, before, |applied|, []);
    assert applied[..|applied|] == applied;
    hide UndoneFrom, Values.Get, Distinct;
  }

  lemma RolledBackIsBack(schedule: Schedule, d: DeviceState, applied: seq<OpName>, before: Values)
    requires RolledBack(schedule, d, applied, before).0 == []
    ensures BackFrom(applied, RolledBack(schedule, d, applied, before).1.values, before, 0)
    ensures KeptOutside(applied, RolledBack(schedule, d, applied, before).1.values, d.values)
  {
    hide UndoneFrom, Values.Get;
    if applied != [] { UndoneFromBack(schedule, d.Next(), applied, before, |applied|, []); }
  }

  lemma TriedKeepsIff(schedule: Schedule, id: DeviceId, base: Config, d: DeviceState, target: Snapshot,
                      operations: seq<Operation>)
    requires Shaped(base) && Distinct(OpNames(operations))
    ensures var (post, n, d1) := TriedRun(schedule, id, base, d, target, operations);
            KeptOutside(OpNames(operations)[..n], d1.values, d.values) <==> !Strays(schedule, d, operations)
  {
    assert OpNames(operations)[..0] == [];
    assert KeptOutside([], d.values, d.values) && KeptOutside([], d.Next().values, d.values);
    WrittenKeepsIff(schedule, d.Next(), operations, 0, d.values);
    hide WrittenFrom, StraysFrom, Values.Get, BackupOf, Valid, DiffSnapshots, KeptOutside, OpNames, Distinct, Shaped;
  }

  /** A transaction that fails and reports no rollback error leaves the old values if and only if
      none of its writes went astray. */
  lemma FailedIsOldIff(schedule: Schedule, id: DeviceId, base: Config, d: DeviceState, target: Snapshot,
                       operations: seq<Operation>)
    requires Shaped(base) && Distinct(OpNames(operations))
    ensures var (r, d2) := TransactionRun(schedule, id, base, d, target, operations, d.values);
            r == Failed([]) ==> (d2.values == d.values <==> !Strays(schedule, d, operations))
  {
    var (post, n, d1) := TriedRun(schedule, id, base, d, target, operations);
    var applied := OpNames(operations)[..n];
    TriedKeepsIff(schedule, id, base, d, target, operations);
    hide TriedRun, RolledBack, Strays, KeptOutside, BackFrom, OpNames, Distinct;
    if post.None? && RolledBack(schedule, d1, applied, d.values).0 == [] {
      RolledBackIsBack(schedule, d1, applied, d.values);
      UndoneUnlessStray(RolledBack(schedule, d1, applied, d.values).1.values, d1.values, d.values, applied);
    }
  }

  /** The same for a whole restore: whether a write goes astray is told by the schedule, the
      device, and the plan that the first backup leads to. */
  ghost predicate RestoreStrays(schedule: Schedule, id: DeviceId, base: Config, d: DeviceState, target: Snapshot,
                                validated: set<OpName>)
    requires Shaped(base)
  {
    var first := BackupOf(schedule, id, base, d);
    && first.Some? && BuildRestorePlan(first.value, target, validated).Success?
    && Strays(schedule, d.Next(), BuildRestorePlan(first.value, target, validated).value.operations)
  }

  lemma FailedRestoreIsOldIff(schedule: Schedule, id: DeviceId, base: Config, d: DeviceState, target: Snapshot,
                              confirmation: int, writesEnabled: bool, validated: set<OpName>)
    requires Shaped(base)
    ensures var (r, d2) := RestoreRun(schedule, id, base, d, target, confirmation, writesEnabled, validated);
            r == Failed([]) ==>
              (d2.values == d.values <==> !RestoreStrays(schedule, id, base, d, target, validated))
  {
    var first := BackupOf(schedule, id, base, d);
    hide Plain, WithValues, BuildRestorePlan, Valid, TransactionRun, Shaped, ValuesOf, BackupOf, Strays, Distinct,
         OpNames;
    if first.Some? && BuildRestorePlan(first.value, target, validated).Success? {
      PlanParts(first.value, target, validated);
      SameValues(first.value, target, validated, base, d.values);
      PlanIsDistinct(first.value, target, validated);
      FailedIsOldIff(schedule, id, base, d.Next(), target,
                     BuildRestorePlan(first.value, target, validated).value.operations);
    }
  }

  class DeviceService {
    const device: Device
    const writesEnabled: bool
    const validatedWrites: set<OpName>

    constructor (device: Device, writesEnabled: bool, validatedWrites: set<OpName>)
      ensures this.device == device && this.writesEnabled == writesEnabled && this.validatedWrites == validatedWrites
    {
      this.device, this.writesEnabled, this.validatedWrites := device, writesEnabled, validatedWrites;
    }

    /** _write_and_ack and the readback: one value is written and read back. */
    method WriteField(name: OpName, value: Json) returns (end: WriteEnd)
      requires device.Valid()
      modifies device
      ensures (end, device.State()) == WrittenOnce(device.schedule, old(device.State()), name, value)
      ensures end.NoBody? <==> Encode(name, value).Failure?
      ensures end.NoBody? ==> device.sent == old(device.sent)
      ensures !end.NoBody? ==> device.sent == old(device.sent) + [Encode(name, value).value]
      ensures end.Good? ==> device.values == old(device.values).Set(name, value) && device.values.Get(name) == value
      ensures end.Good? <==> Encode(name, value).Success? && device.faults == old(device.faults)
      ensures forall n: OpName :: n != name ==> device.values.Get(n) == old(device.values).Get(n)
      ensures device.faults >= old(device.faults) && (end.Good? || end.Bad? ==> device.strays == old(device.strays))
      ensures device.strays == old(device.strays) || device.values.Get(name) != old(device.values).Get(name)
      ensures end.Unacknowledged? && device.strays == old(device.strays) ==> device.values == old(device.values)
      ensures end.NoBody? ==> device.values == old(device.values) && device.strays == old(device.strays)
    {
      hide Encode, Obeyed, Decoded, Shaped, Values.Get, Values.Set;
      var body := Encode(name, value);
      if body.Failure? {
        return NoBody;
      }
      ghost var v := device.values;
      assert HeaderStart(device.header);
      hide HeaderStart;
      ObeyedSets(device.header, v, name, value);
      var acked := device.Write(name, body.value);
      if device.values != v { SameUnless(device.values, v, name); }
      if !acked {
        return Unacknowledged;
      }
      var readback := device.Read(name);
      if readback.None? {
        return Bad(false);
      }
      if readback.value != value {
        return Bad(true);
      }
      SameUnlessSet(device.values, v, name, value);
      return Good;
    }

    /** Write, acknowledge, read back, compare, one operation after another.  Without a fault all
        of them end up applied; with one, the fields that were not applied keep their values unless
        the unacknowledged write took effect all the same. */
    method WriteAll(operations: seq<Operation>, target: Values)
      returns (ok: bool, applied: seq<OpName>, ghost tried: nat)
      requires device.Valid() && Planned(operations, target)
      modifies device
      ensures applied <= OpNames(operations)
      ensures (ok, |applied|, device.State()) == AllWritten(device.schedule, old(device.State()), operations)
      ensures ok <==> device.faults == old(device.faults)
      ensures device.faults >= old(device.faults)
      ensures ok ==> applied == OpNames(operations) && device.values == Replay(old(device.values), operations)
      ensures ok ==> tried == |operations| && device.strays == old(device.strays)
      ensures |applied| <= tried <= |applied| + 1 && tried <= |operations|
      ensures device.sent == old(device.sent) + Bodies(operations)[..tried]
      ensures KeptOutside(applied, device.values, old(device.values)) <==> device.strays == old(device.strays)
    {
      hide Encode, Shaped, HeaderStart, Distinct, Values.Get, Values.Set, WrittenOnce;
      applied, tried := [], 0;
      var open := device.Open();
      if !open {
        return false, applied, tried;
      }
      for i := 0 to |operations|
        invariant WrittenFrom(device.schedule, old(device.State()).Next(), operations, 0)
                  == WrittenFrom(device.schedule, device.State(), operations, i)
        invariant applied == OpNames(operations)[..i] && tried == i
        invariant device.faults == old(device.faults) && device.strays == old(device.strays)
        invariant device.values == Replay(old(device.values), operations[..i])
        invariant device.sent == old(device.sent) + Bodies(operations)[..i]
        invariant forall n: OpName :: n !in applied ==> device.values.Get(n) == old(device.values).Get(n)
      {
        var op := operations[i];
        ReplayOneMore(old(device.values), operations, i);
        FreshName(OpNames(operations), i);
        var end := WriteField(op.name, op.target);
        tried := i + 1;
        if end.Unacknowledged? {
          return false, applied, tried;
        }
        applied := applied + [op.name];
        if !end.Good? {
          return false, applied, tried;
        }
      }
      assert operations[..|operations|] == operations;
      assert OpNames(operations)[..|operations|] == OpNames(operations);
      assert Bodies(operations)[..|operations|] == Bodies(operations);
      return true, applied, tried;
    }

    /** The loop of a rollback, last field first. */
    method UndoAll(applied: seq<OpName>, before: Values) returns (errors: seq<RollbackError>)
      requires device.Valid()
      modifies device
      ensures (errors, device.State())
              == UndoneFrom(device.schedule, old(device.State()), applied, before, |applied|, [])
      ensures errors == [] ==> BackFrom(applied, device.values, before, 0)
      ensures KeptOutside(applied, device.values, old(device.values))
      ensures errors == [] <==> device.faults == old(device.faults) && WritableFrom(applied, before, 0)
      ensures errors == [] ==> device.sent == old(device.sent) + UndoBodies(applied, before)
                               && device.strays == old(device.strays)
      ensures device.faults >= old(device.faults)
    {
      ghost var v0, run := device.values, UndoneFrom(device.schedule, device.State(), applied, before, |applied|, []);
      NothingUndone(applied, before, v0, device.sent);
      hide Shaped, HeaderStart, UndoBodies, Encode, Values.Get, Values.Set, WrittenOnce, BackFrom, WritableFrom,
           KeptOutside, Underway, UndoneFrom;
      errors := [];
      var i := |applied|;
      while i > 0
        invariant 0 <= i <= |applied|
        invariant run == UndoneFrom(device.schedule, device.State(), applied, before, i, errors)
        invariant device.faults >= old(device.faults)
        invariant errors == [] <==> device.faults == old(device.faults)
        invariant Underway(applied, before, device.values, v0, device.sent, old(device.sent), i, errors == [])
        invariant errors == [] ==> device.strays == old(device.strays)
      {
        UndoOnce(device.schedule, device.State(), applied, before, i, errors);
        i := i - 1;
        ghost var v, sent := device.values, device.sent;
        var name := applied[i];
        var end := WriteField(name, before.Get(name));
        OneMoreUndone(applied, before, v, device.values, v0, sent, device.sent, old(device.sent), i, errors == []);
        if end == Bad(true) {
          errors := errors + [Mismatch(name)];
        } else if !end.Good? {
          return errors + [Interrupted];
        }
      }
      AllUndone(applied, before, device.values, v0, device.sent, old(device.sent), errors == []);
      NoneLeft(device.schedule, device.State(), applied, before, errors);
    }

    /** Writes the old values back, last field first.  It reports no error exactly when no step
        fails and every old value can be written, and then the old values are back. */
    method Rollback(applied: seq<OpName>, before: Values) returns (errors: seq<RollbackError>)
      requires device.Valid()
      modifies device
      ensures (errors, device.State()) == RolledBack(device.schedule, old(device.State()), applied, before)
      ensures errors == [] ==> BackFrom(applied, device.values, before, 0)
      ensures KeptOutside(applied, device.values, old(device.values))
      ensures errors == [] <==> device.faults == old(device.faults) && WritableFrom(applied, before, 0)
      ensures errors == [] ==> device.sent == old(device.sent) + UndoBodies(applied, before)
                               && device.strays == old(device.strays)
      ensures device.faults >= old(device.faults)
    {
      NothingUndone(applied, before, device.values, device.sent);
      hide UndoneFrom, Encode, Values.Get, UndoBodies, Shaped, HeaderStart, WritableFrom, BackFrom;
      if applied == [] {
        return [];
      }
      var open := device.Open();
      if !open {
        return [Interrupted];
      }
      errors := UndoAll(applied, before);
    }

    /** What must hold before anything is written. */
    ghost predicate Permitted(current: Option<Snapshot>, target: Snapshot, confirmation: int) {
      && writesEnabled && current.Some?
      && var plan := BuildRestorePlan(current.value, target, validatedWrites);
         plan.Success? && confirmation == plan.value.confirmNode && plan.value.canApply
    }

    /** The body of the try block, after the backup `current`. */
    method TryRestore(operations: seq<Operation>, target: Snapshot, current: Snapshot)
      returns (post: Option<Snapshot>, applied: seq<OpName>, ghost tried: nat)
      requires device.Valid() && BuildRestorePlan(current, target, validatedWrites).Success?
      requires operations == BuildRestorePlan(current, target, validatedWrites).value.operations
      requires BuildRestorePlan(current, target, validatedWrites).value.canApply
      requires Shaped(current.config) && Shaped(target.config) && ValuesOf(current.config) == device.values
      requires current.device == device.id && Plain(current.config) == Plain(device.Configuration())
      modifies device
      ensures applied <= OpNames(operations)
      ensures (post, |applied|, device.State())
              == TriedRun(device.schedule, device.id, device.base, old(device.State()), target, operations)
      ensures post.Some? ==> WalkDiff(Plain(device.Configuration()), Plain(target.config), []) == []
      ensures post.Some? ==> tried == |operations| && device.strays == old(device.strays)
      ensures |applied| <= tried <= |applied| + 1 && tried <= |operations|
      ensures device.sent == old(device.sent) + Bodies(operations)[..tried]
      ensures KeptOutside(applied, device.values, old(device.values)) <==> device.strays == old(device.strays)
      ensures device.faults >= old(device.faults)
      ensures post.Some? <==> device.faults == old(device.faults) && AgreeOnNamesakes(current.config, target.config)
    {
      ghost var d0, v0 := device.State(), device.values;
      PlanIsPlanned(current, target, validatedWrites);
      hide Plain, WithValues, BuildRestorePlan, Valid, WalkDiff, AgreeOnNamesakes, Shaped, HeaderStart, ValuesOf,
           Values.Get, BackupOf, AllWritten, DiffSnapshots, Replay, OpNames, Bodies, Planned, KeptOutside, TriedRun;
      var ok, done, n := WriteAll(operations, ValuesOf(target.config));
      applied, tried := done, n;
      TriedIs(device.schedule, device.id, device.base, d0, target, operations, ok, |done|, device.State());
      if !ok {
        return None, applied, tried;
      }
      ghost var d1 := device.State();
      post := device.Backup();
      assert device.State() == d1.Next() && post == BackupOf(device.schedule, device.id, device.base, d1);
      if post.Some? {
        FaultlessMatches(current, target, validatedWrites, device.base, v0, post.value);
        if Valid(post.value) && DiffSnapshots(post.value, target) == [] {
          MatchMeansNoDifference(post.value, target, device.Configuration());
          return post, applied, tried;
        }
      }
      return None, applied, tried;
    }

    /** The part of a restore that writes, after the backup `current`. */
    method Transact(operations: seq<Operation>, target: Snapshot, current: Snapshot)
      returns (r: Outcome, ghost applied: seq<OpName>, ghost tried: nat)
      requires device.Valid() && BuildRestorePlan(current, target, validatedWrites).Success?
      requires operations == BuildRestorePlan(current, target, validatedWrites).value.operations
      requires BuildRestorePlan(current, target, validatedWrites).value.canApply
      requires Shaped(current.config) && Shaped(target.config) && ValuesOf(current.config) == device.values
      requires current.device == device.id && Plain(current.config) == Plain(device.Configuration())
      modifies device
      ensures (r, device.State()) == TransactionRun(device.schedule, device.id, device.base, old(device.State()),
                                                    target, operations, old(device.values))
      ensures r.Restored? || r.Failed?
      ensures |applied| == TriedRun(device.schedule, device.id, device.base, old(device.State()), target, operations).1
      ensures r.Restored? ==> WalkDiff(Plain(device.Configuration()), Plain(target.config), []) == []
      ensures r.Restored? ==>
                device.strays == old(device.strays) && device.sent == old(device.sent) + Bodies(operations)
      ensures r.Failed? && r.rollbackErrors == [] ==>
                (device.values == old(device.values) <==> device.strays == old(device.strays))
      ensures r.Failed? && r.rollbackErrors == [] ==>
                forall n: OpName :: n in applied ==> device.values.Get(n) == old(device.values).Get(n)
      ensures r.Failed? ==>
                && applied <= OpNames(operations) && |applied| <= tried <= |applied| + 1 && tried <= |operations|
                && (r.rollbackErrors == [] ==> device.sent == old(device.sent) + Bodies(operations)[..tried]
                                                              + UndoBodies(applied, old(device.values)))
      ensures r.Failed? && r.rollbackErrors == [] && SlotTime in applied ==> old(device.values).slotTime != Num(0)
      ensures device.faults >= old(device.faults)
      ensures r.Restored? <==> device.faults == old(device.faults)
                               && AgreeOnNamesakes(current.config, target.config)
    {
      ghost var v0 := device.values;
      hide Plain, WithValues, BuildRestorePlan, Valid, WalkDiff, AgreeOnNamesakes, Shaped, HeaderStart, ValuesOf,
           Values.Get, UndoBodies, TriedRun, RolledBack, OpNames, Bodies, Encode, KeptOutside, BackFrom, WritableFrom;
      var post, done, n := TryRestore(operations, target, current);
      applied, tried := done, n;
      if post.Some? {
        AllTaken(Bodies(operations));
        return Restored(post.value), done, n;
      }
      assert OpNames(operations)[..|done|] == done;
      ghost var v1 := device.values;
      var errors := Rollback(done, ValuesOf(current.config));
      if errors == [] {
        UndoneUnlessStray(device.values, v1, v0, done);
        AllBack(done, device.values, v0);
        if SlotTime in done { ZeroIsNotWritten(v0); }
      }
      return Failed(errors), done, n;
    }

    /** All or old.  `current` is the backup taken first, `applied` the fields that were written and
        acknowledged, `tried` the number of writes before any rollback. */
    method ApplyRestore(target: Snapshot, confirmation: int)
      returns (r: Outcome, ghost current: Option<Snapshot>, ghost applied: seq<OpName>, ghost tried: nat)
      requires device.Valid()
      modifies device
      // the outcome and the device are those of the run under its schedule
      ensures (r, device.State()) == RestoreRun(device.schedule, device.id, device.base, old(device.State()),
                                                target, confirmation, writesEnabled, validatedWrites)
      // refused exactly when not permitted, and then nothing is written
      ensures r.Refused? <==> !Permitted(current, target, confirmation)
      ensures current == if !Valid(target) || !writesEnabled then None
                         else BackupOf(device.schedule, device.id, device.base, old(device.State()))
      ensures current.Some? ==> current.value.device == device.id
                                && Plain(current.value.config) == Plain(old(device.Configuration()))
      ensures current.None? ==> !Valid(target) || !writesEnabled || device.faults > old(device.faults)
      ensures r.Refused? ==> device.values == old(device.values) && device.sent == old(device.sent)
      ensures !r.Refused? ==> Shaped(current.value.config) && Shaped(target.config)
      // nothing is written unless writes are enabled, the target was taken from this very device, its
      // node is confirmed, and no field that differs is waiting for its hardware validation
      ensures !r.Refused? ==>
                && writesEnabled && target.device == device.id && confirmation == device.id.nodeId
                && (forall name :: name in Wanted(old(device.values), ValuesOf(target.config)) ==>
                      name in validatedWrites)
                && old(device.values) != ValuesOf(target.config)
      ensures target.device != device.id || confirmation != device.id.nodeId || !writesEnabled ==>
                r.Refused? && device.values == old(device.values) && device.sent == old(device.sent)
      // restored: nothing differs from the target
      ensures r.Restored? ==> WalkDiff(Plain(device.Configuration()), Plain(target.config), []) == []
      ensures r.Restored? ==> device.strays == old(device.strays) && device.sent == old(device.sent)
                              + Bodies(BuildRestorePlan(current.value, target, validatedWrites).value.operations)
      // failed and rolled back: everything is old, unless an unacknowledged write took effect
      ensures r == Failed([]) ==>
                (device.values == old(device.values) <==>
                 !RestoreStrays(device.schedule, device.id, device.base, old(device.State()), target, validatedWrites))
      ensures r.Failed? && r.rollbackErrors == [] ==>
                (device.values == old(device.values) <==> device.strays == old(device.strays))
      ensures r.Failed? && r.rollbackErrors == [] ==>
                forall n: OpName :: n in applied ==> device.values.Get(n) == old(device.values).Get(n)
      ensures r.Failed? ==>
                var operations := BuildRestorePlan(current.value, target, validatedWrites).value.operations;
                && applied <= OpNames(operations) && |applied| <= tried <= |applied| + 1 && tried <= |operations|
                && |applied| == TriedRun(device.schedule, device.id, device.base, old(device.State()).Next(), target,
                                         operations).1
                && (r.rollbackErrors == [] ==> device.sent == old(device.sent) + Bodies(operations)[..tried]
                                                              + UndoBodies(applied, old(device.values)))
      // a slot time of zero cannot be written back
      ensures r.Failed? && r.rollbackErrors == [] && SlotTime in applied ==> old(device.values).slotTime != Num(0)
      // a permitted restore succeeds exactly when no step goes wrong and no channel field that only
      // starts like "enabled" differs
      ensures !r.Refused? ==>
                (r.Restored? <==> device.faults == old(device.faults)
                                  && AgreeOnNamesakes(current.value.config, target.config))
    {
      hide Plain, WithValues, BuildRestorePlan, Valid, TransactionRun, WalkDiff, AgreeOnNamesakes, Shaped, HeaderStart,
           ValuesOf, Values.Get, UndoBodies, BackupOf, RestoreStrays, TriedRun;
      current, applied, tried := None, [], 0;
      FailedRestoreIsOldIff(device.schedule, device.id, device.base, device.State(), target, confirmation,
                            writesEnabled, validatedWrites);
      if !Valid(target) || !writesEnabled {
        return Refused, None, [], 0;
      }
      var first := device.Backup();
      current := first;
      if first.None? {
        return Refused, None, [], 0;
      }
      var built := BuildRestorePlan(first.value, target, validatedWrites);
      if built.Failure? || confirmation != built.value.confirmNode || !built.value.canApply {
        return Refused, first, [], 0;
      }
      PlanParts(first.value, target, validatedWrites);
      SameValues(first.value, target, validatedWrites, device.base, device.values);
      WritesAreValidated(first.value, target, validatedWrites);
      r, applied, tried := Transact(built.value.operations, target, first.value);
    }
  }

  // ---------------------------------------------------------------- a stray write

  const SAMPLE_ID := DeviceId(1, 0x4E, 1, 2, 81, 0)

  /** Every step succeeds but the first write, which takes effect and is not acknowledged. */
  function LosingFirstAck(i: nat): Fate {
    Fate(i != 2, if i == 2 then Some(Num(600)) else None, WithNamesake(300, false))
  }

  /** A restore that fails and reports no rollback error, and leaves other values than it found. */
  ghost predicate LeavesStray(schedule: Schedule, base: Config, d: DeviceState, target: Snapshot) {
    && Shaped(base)
    && var (r, d') := RestoreRun(schedule, SAMPLE_ID, base, d, target, 1, true, {Sampling});
       r == Failed([]) && d'.values != d.values
  }

  /** The writes of a plan that starts with the sampling time, when the first one is lost. */
  lemma FirstAckLost(base: Config, d: DeviceState, target: Snapshot, operations: seq<Operation>, before: Values)
    requires Shaped(base) && d.step == 1 && operations != [] && operations[0].name == Sampling
    requires Encode(Sampling, operations[0].target).Success?
    ensures TransactionRun(LosingFirstAck, SAMPLE_ID, base, d, target, operations, before)
            == (Failed([]), DeviceState(d.values.Set(Sampling, Num(600)), 3))
  {
    var d1 := DeviceState(d.values.Set(Sampling, Num(600)), 3);
    hide Encode, WithNamesake, BackupOf, DiffSnapshots, Valid;
    assert Written(d.Next(), Sampling, LosingFirstAck(2)) == d1;
    assert AllWritten(LosingFirstAck, d, operations) == (false, 0, d1);
    hide AllWritten;
    assert OpNames(operations)[..0] == [];
  }

  lemma PlanNode(current: Snapshot, target: Snapshot)
    requires BuildRestorePlan(current, target, {Sampling}).Success?
    ensures BuildRestorePlan(current, target, {Sampling}).value.confirmNode == current.device.nodeId
  {
    hide PlanField, DiffSnapshots, Valid, ValuesOf, Blocked;
  }

  lemma OnlySamplingDiffers()
    ensures Shaped(WithNamesake(300, false)) && Shaped(WithNamesake(600, false))
    ensures AgreeElsewhere(WithNamesake(300, false), WithNamesake(600, false))
  {
    EmptyFields();
    hide CONFIG_KEYS, EMPTY_FIELDS, ALL_AXES, WithoutHeader;
  }

  /** The plan from 300 to 600 seconds. */
  lemma SamplingPlan(current: Snapshot, target: Snapshot)
    requires current.device == target.device == SAMPLE_ID
    requires current.config == WithNamesake(300, false) && target.config == WithNamesake(600, false)
    ensures Valid(current) && Valid(target) && Shaped(current.config) && Shaped(target.config)
    ensures var built := BuildRestorePlan(current, target, {Sampling});
            && built.Success? && built.value.canApply && built.value.confirmNode == 1
            && built.value.operations != [] && built.value.operations[0].name == Sampling
            && Encode(Sampling, built.value.operations[0].target).Success?
  {
    assert ValidDevice(SAMPLE_ID) && SAMPLE_ID.nodeId == 1;
    NamesakeIsValid(300, false);
    NamesakeIsValid(600, false);
    OnlySamplingDiffers();
    assert target.config["radio_slot_time"] == current.config["radio_slot_time"];
    hide WithNamesake, ValidConfig, ValidDevice, Shaped, AgreeElsewhere, ValuesOf, Encode, SAMPLE_ID;
    PlanExistsIff(current, target, {Sampling});
    OneOperation(current, target);
    CanApplyIff(current, target, {Sampling});
    OperationsEmptyIff(current, target, {Sampling});
    PlanIsPlanned(current, target, {Sampling});
    PlanNode(current, target);
  }

  lemma StrayRun(base: Config, d: DeviceState, current: Snapshot, target: Snapshot, operations: seq<Operation>)
    requires Shaped(base) && base == WithNamesake(300, false) && current == Snapshot(SAMPLE_ID, base) && d.step == 0
    requires Valid(target) && d.values == ValuesOf(base) && WithValues(base, d.values) == base
    requires d.values.sampling == Num(300)
    requires var built := BuildRestorePlan(current, target, {Sampling});
             && built.Success? && built.value.canApply && built.value.confirmNode == 1
             && built.value.operations == operations
    requires TransactionRun(LosingFirstAck, SAMPLE_ID, base, d.Next(), target, operations, d.values)
             == (Failed([]), DeviceState(d.values.Set(Sampling, Num(600)), 3))
    ensures LeavesStray(LosingFirstAck, base, d, target)
  {
    assert BackupOf(LosingFirstAck, SAMPLE_ID, base, d) == Some(current) by { hide WithNamesake, Plain, WithValues; }
    hide WithNamesake, Plain, WithValues, Valid, BackupOf, TransactionRun, BuildRestorePlan, ValuesOf, Shaped;
  }

  lemma SampleValues(base: Config)
    requires base == WithNamesake(300, false)
    ensures Shaped(base) && ValuesOf(base).sampling == Num(300) && WithValues(base, ValuesOf(base)) == base
  {
    OnlySamplingDiffers();
    WithValuesLaws(base, ValuesOf(base));
    NamesakeIsValid(300, false);
    hide WithValues, ValidConfig;
  }

  /** Such a run exists. */
  lemma StrayWriteStays()
    ensures exists schedule: Schedule, base: Config, d: DeviceState, target: Snapshot ::
              LeavesStray(schedule, base, d, target)
  {
    var base, target := WithNamesake(300, false), Snapshot(SAMPLE_ID, WithNamesake(600, false));
    hide WithNamesake, Shaped, ValuesOf, WithValues, BuildRestorePlan, Valid, Encode, TransactionRun, LeavesStray,
         Values.Set;
    SampleValues(base);
    var current, d := Snapshot(SAMPLE_ID, base), DeviceState(ValuesOf(base), 0);
    SamplingPlan(current, target);
    var operations := BuildRestorePlan(current, target, {Sampling}).value.operations;
    FirstAckLost(base, d.Next(), target, operations, d.values);
    StrayRun(base, d, current, target, operations);
  }
}
