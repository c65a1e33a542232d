/** Snapshots and restore plans (tools/config_backup.py). */
module RestorePlan {
  import opened Common
  import opened Messages
  import opened ConfigMessages
  import opened WriteEncoders
  import opened ConfigDiff

  datatype DeviceId = DeviceId(
    nodeId: int, productCode: int, serialNumber: int, firmwareMajor: int, firmwareMinor: int, firmwareBuildTime: int)

  type Config = map<string, Json>

  /** A snapshot whose checksum and schema name have been verified. */
  datatype Snapshot = Snapshot(device: DeviceId, config: Config)

  datatype BackupError = InvalidSnapshot | OtherDevice | Unencodable

  const CONFIG_KEYS: set<string> := {
    "sampling", "calibration", "channels", "radio_general", "radio_address", "radio_channels",
    "radio_down_channels", "radio_slot_time", "radio_network_id", "radio_join"
  }

  // ---------------------------------------------------------------- valid snapshots

  predicate IsAxes(j: Json) {
    && j.Obj? && j.fields.Keys == {"x", "y", "z"}
    && j.fields["x"].Bool? && j.fields["y"].Bool? && j.fields["z"].Bool?
  }

  function AxesOf(j: Json): AxisSet
    requires IsAxes(j)
  {
    AxisSet(j.fields["x"].b, j.fields["y"].b, j.fields["z"].b)
  }

  predicate AnyAxis(a: AxisSet) {
    a.x || a.y || a.z
  }

  predicate NumIn(j: Json, lo: int, hi: int) {
    j.Num? && lo <= j.n <= hi
  }

  predicate ValidDevice(d: DeviceId) {
    && 0 <= d.nodeId <= 0xFFFFF && 0 <= d.productCode <= 0xFF
    && d.firmwareMajor >= 0 && d.firmwareMinor >= 0 && d.firmwareBuildTime >= 0
  }

  /** The three restorable fields are present, with the right types; channels is an object. */
  predicate Shaped(c: Config) {
    && "sampling" in c && "radio_slot_time" in c && "channels" in c
    && c["channels"].Obj? && "enabled" in c["channels"].fields
  }

  predicate ValidConfig(c: Config) {
    && c.Keys == CONFIG_KEYS && Shaped(c)
    && NumIn(c["sampling"], 1, 0xFFFFFF) && NumIn(c["radio_slot_time"], 0, 0xFFFF)
    && IsAxes(c["channels"].fields["enabled"]) && AnyAxis(AxesOf(c["channels"].fields["enabled"]))
  }

  predicate Valid(s: Snapshot) {
    ValidDevice(s.device) && ValidConfig(s.config)
  }

  /** The decoder's own channel fields: none but "enabled" starts with that word. */
  predicate DecodedChannels(c: Config)
    requires Shaped(c)
  {
    forall k :: k in c["channels"].fields && "enabled" <= k ==> k == "enabled"
  }

  // ---------------------------------------------------------------- plain configurations

  function WithoutHeader(j: Json): Json {
    if j.Obj? then Obj(j.fields - {"header"}) else j
  }

  function Plain(c: Config): Json {
    Obj(map k | k in c :: WithoutHeader(c[k]))
  }

  function DiffSnapshots(current: Snapshot, target: Snapshot): seq<Change> {
    WalkDiff(Plain(current.config), Plain(target.config), [])
  }

  // ---------------------------------------------------------------- restorable fields

  datatype OpName = Sampling | Channels | SlotTime

  /** The values of the three restorable fields. */
  datatype Values = Values(sampling: Json, enabled: Json, slotTime: Json) {
    function Get(name: OpName): Json {
      match name
      case Sampling => sampling
      case Channels => enabled
      case SlotTime => slotTime
    }

    function Set(name: OpName, v: Json): Values {
      match name
      case Sampling => this.(sampling := v)
      case Channels => this.(enabled := v)
      case SlotTime => this.(slotTime := v)
    }
  }

  function ValuesOf(c: Config): Values
    requires Shaped(c)
  {
    Values(c["sampling"], c["channels"].fields["enabled"], c["radio_slot_time"])
  }

  /** A configuration with other values in the three fields. */
  function WithValues(c: Config, v: Values): Config
    requires Shaped(c)
  {
    c["sampling" := v.sampling]["radio_slot_time" := v.slotTime]
     ["channels" := Obj(c["channels"].fields["enabled" := v.enabled])]
  }

  lemma WithValuesLaws(c: Config, v: Values)
    requires Shaped(c)
    ensures Shaped(WithValues(c, v)) && ValuesOf(WithValues(c, v)) == v
    ensures WithValues(c, ValuesOf(c)) == c
  {
    var same := WithValues(c, ValuesOf(c));
    assert c["channels"].fields["enabled" := c["channels"].fields["enabled"]] == c["channels"].fields;
    assert same == c;
  }

  function Encode(name: OpName, v: Json): Result<seq<byte>, EncodeError> {
    match name
    case Sampling => if v.Num? then EncodeSamplingWrite(v.n) else Failure(OutOfRange)
    case Channels => if IsAxes(v) then EncodeChannelsWrite(AxesOf(v)) else Failure(NoAxis)
    case SlotTime => if v.Num? then EncodeSlotTimeWrite(v.n) else Failure(OutOfRange)
  }

  /** What a response that repeats a write body decodes to. */
  function Decoded(name: OpName, response: seq<byte>): Option<Json> {
    match name
    case Sampling => var r := SamplingOf(response); if r.Success? then Some(Num(r.value)) else None
    case SlotTime => var r := SlotTimeOf(response); if r.Success? then Some(Num(r.value)) else None
    case Channels =>
      var r := Inc360Of(response);
      if r.Success? then
        Some(Obj(map["x" := Bool(r.value.enabled.x), "y" := Bool(r.value.enabled.y), "z" := Bool(r.value.enabled.z)]))
      else None
  }

  // ---------------------------------------------------------------- the plan

  datatype Operation = Operation(name: OpName, current: Json, target: Json, body: seq<byte>)

  datatype Plan = Plan(operations: seq<Operation>, blocked: seq<Change>, confirmNode: int, canApply: bool)

  /** The operation for one field, if it differs. */
  function PlanField(name: OpName, current: Values, target: Values): Result<seq<Operation>, BackupError> {
    if current.Get(name) == target.Get(name) then Success([])
    else
      var body := Encode(name, target.Get(name));
      if body.Failure? then Failure(Unencodable)
      else Success([Operation(name, current.Get(name), target.Get(name), body.value)])
  }

  /** The path starts, as text, with the path of a restorable field. */
  predicate Restorable(path: seq<string>) {
    && path != []
    && ("sampling" <= path[0] || "radio_slot_time" <= path[0]
        || (path[0] == "channels" && |path| > 1 && "enabled" <= path[1]))
  }

  predicate AllRestorable(d: seq<Change>) {
    forall i :: 0 <= i < |d| ==> Restorable(d[i].path)
  }

  function Blocked(d: seq<Change>): seq<Change> {
    if d == [] then []
    else (if Restorable(d[0].path) then [] else [d[0]]) + Blocked(d[1..])
  }

  function BuildRestorePlan(current: Snapshot, target: Snapshot, validated: set<OpName>): Result<Plan, BackupError> {
    if !Valid(current) || !Valid(target) then Failure(InvalidSnapshot)
    else if current.device != target.device then Failure(OtherDevice)
    else
      var c, t := ValuesOf(current.config), ValuesOf(target.config);
      var sampling :- PlanField(Sampling, c, t);
      var channels :- PlanField(Channels, c, t);
      var slotTime :- PlanField(SlotTime, c, t);
      var operations := sampling + channels + slotTime;
      var blocked := Blocked(DiffSnapshots(current, target));
      Success(Plan(operations, blocked, current.device.nodeId,
                   operations != [] && blocked == [] && forall op :: op in operations ==> op.name in validated))
  }

  // ---------------------------------------------------------------- what a plan is worth

  /** A field can be written exactly when it is valid and, for the slot time, not zero: a zero
      slot time is a valid reading that no write produces. */
  lemma EncodableIff(c: Config, name: OpName)
    requires ValidConfig(c)
    ensures Encode(name, ValuesOf(c).Get(name)).Success? <==> !(name.SlotTime? && c["radio_slot_time"] == Num(0))
  {
  }

  lemma FieldPlanned(name: OpName, current: Config, target: Config)
    requires ValidConfig(current) && ValidConfig(target)
    ensures PlanField(name, ValuesOf(current), ValuesOf(target)).Success? <==>
            !(name.SlotTime? && target["radio_slot_time"] == Num(0) && current["radio_slot_time"] != Num(0))
  {
    EncodableIff(target, name);
    hide Encode, ValidConfig;
  }

  /** A plan exists exactly if both snapshots are valid, all six fields of the device agree, and the
      target does not want a zero slot time that the device does not have. */
  lemma PlanExistsIff(current: Snapshot, target: Snapshot, validated: set<OpName>)
    ensures BuildRestorePlan(current, target, validated).Success? <==>
            && Valid(current) && Valid(target)
            && current.device.nodeId == target.device.nodeId && current.device.productCode == target.device.productCode
            && current.device.serialNumber == target.device.serialNumber
            && current.device.firmwareMajor == target.device.firmwareMajor
            && current.device.firmwareMinor == target.device.firmwareMinor
            && current.device.firmwareBuildTime == target.device.firmwareBuildTime
            && !(target.config["radio_slot_time"] == Num(0) && current.config["radio_slot_time"] != Num(0))
    ensures BuildRestorePlan(current, target, validated) == Failure(InvalidSnapshot) <==>
            !Valid(current) || !Valid(target)
    ensures BuildRestorePlan(current, target, validated) == Failure(OtherDevice) <==>
            Valid(current) && Valid(target) && current.device != target.device
  {
    if Valid(current) && Valid(target) {
      FieldPlanned(Sampling, current.config, target.config);
      FieldPlanned(Channels, current.config, target.config);
      FieldPlanned(SlotTime, current.config, target.config);
      hide PlanField, DiffSnapshots, Blocked, ValidConfig, ValidDevice, ValuesOf;
    }
    hide PlanField, DiffSnapshots, Blocked, ValidConfig, ValidDevice, ValuesOf;
  }

  /** A snapshot may only hold what the sensor can be told: with other values in the three fields it
      stays valid exactly if each of them can be written, or is a slot time of zero. */
  lemma ValidValuesIff(c: Config, v: Values)
    requires ValidConfig(c)
    ensures ValidConfig(WithValues(c, v)) <==>
            && Encode(Sampling, v.sampling).Success? && Encode(Channels, v.enabled).Success?
            && (Encode(SlotTime, v.slotTime).Success? || v.slotTime == Num(0))
  {
    var r := WithValues(c, v);
    assert r.Keys == c.Keys;
    hide IsAxes, AxesOf, CONFIG_KEYS;
  }

  /** The identity of a snapshot is one a message header can carry, with a firmware of natural
      numbers. */
  lemma ValidDeviceIff(d: DeviceId)
    ensures ValidDevice(d) <==>
            && (exists h: Header :: h.InRange() && h.nodeId == d.nodeId && h.productCode == d.productCode)
            && d.firmwareMajor >= 0 && d.firmwareMinor >= 0 && d.firmwareBuildTime >= 0
  {
    if ValidDevice(d) {
      var h := Header(4, d.nodeId / 0x10000, d.productCode, d.nodeId, 0, 0);
      assert h.InRange() && h.nodeId == d.nodeId && h.productCode == d.productCode;
    }
  }

  /** The fields that differ, in the order in which they are written. */
  function Wanted(c: Values, t: Values): seq<OpName> {
    (if c.sampling != t.sampling then [Sampling] else []) + (if c.enabled != t.enabled then [Channels] else [])
    + if c.slotTime != t.slotTime then [SlotTime] else []
  }

  lemma PlansWhatDiffers(current: Snapshot, target: Snapshot, validated: set<OpName>)
    requires BuildRestorePlan(current, target, validated).Success?
    ensures var plan := BuildRestorePlan(current, target, validated).value;
            var wanted := Wanted(ValuesOf(current.config), ValuesOf(target.config));
            && plan.confirmNode == current.device.nodeId == target.device.nodeId
            && |plan.operations| == |wanted|
            && forall i :: 0 <= i < |wanted| ==> plan.operations[i].name == wanted[i]
  {
    hide Encode, DiffSnapshots, Blocked, Valid, ValuesOf;
  }

  lemma PlannedField(c: Values, t: Values, op: Operation, current: Snapshot, target: Snapshot, validated: set<OpName>)
    requires BuildRestorePlan(current, target, validated).Success?
    requires c == ValuesOf(current.config) && t == ValuesOf(target.config)
    requires op in BuildRestorePlan(current, target, validated).value.operations
    ensures op.current == c.Get(op.name) && op.target == t.Get(op.name) && op.current != op.target
    ensures Encode(op.name, op.target) == Success(op.body)
  {
    hide Encode, WalkDiff, Values.Get, Valid, ValuesOf;
  }

  lemma BodyDecodes(h: seq<byte>, name: OpName, v: Json)
    requires HeaderStart(h) && Encode(name, v).Success?
    ensures Decoded(name, h + Encode(name, v).value) == Some(v)
  {
    match name {
      case Sampling => SamplingAgrees(h, v.n);
      case SlotTime => SlotTimeAgrees(h, v.n);
      case Channels =>
        ChannelsAgree(h, AxesOf(v));
        var a := AxesOf(v);
        assert v.fields == map["x" := Bool(a.x), "y" := Bool(a.y), "z" := Bool(a.z)];
    }
  }

  /** Every planned operation is a real difference, and its body decodes to the target value behind
      any response header. */
  lemma OperationsAreReal(current: Snapshot, target: Snapshot, validated: set<OpName>, i: nat, h: seq<byte>)
    requires BuildRestorePlan(current, target, validated).Success? && HeaderStart(h)
    requires i < |BuildRestorePlan(current, target, validated).value.operations|
    ensures var op := BuildRestorePlan(current, target, validated).value.operations[i];
            && op.current == ValuesOf(current.config).Get(op.name) && op.target == ValuesOf(target.config).Get(op.name)
            && op.current != op.target && Encode(op.name, op.target) == Success(op.body)
            && Decoded(op.name, h + op.body) == Some(op.target)
  {
    var c, t := ValuesOf(current.config), ValuesOf(target.config);
    var op := BuildRestorePlan(current, target, validated).value.operations[i];
    PlannedField(c, t, op, current, target, validated);
    assert ValidConfig(target.config);
    hide BuildRestorePlan;
    BodyDecodes(h, op.name, op.target);
  }

  // ---------------------------------------------------------------- sufficiency

  lemma {:induction false} BlockedEmptyIff(d: seq<Change>)
    ensures Blocked(d) == [] <==> AllRestorable(d)
    decreases |d|
  {
    hide Restorable;
    if d != [] {
      BlockedEmptyIff(d[1..]);
      assert forall i :: 1 <= i < |d| ==> d[i] == d[1..][i - 1];
      if AllRestorable(d) {
        forall i | 0 <= i < |d[1..]| ensures Restorable(d[1..][i].path) { assert d[1..][i] == d[i + 1]; }
      }
    }
  }

  /** No other configuration key starts like the name of a restorable field. */
  lemma PrefixOfKey(k: string)
    requires k in CONFIG_KEYS
    ensures "sampling" <= k ==> k == "sampling"
    ensures "radio_slot_time" <= k ==> k == "radio_slot_time"
  {
    var s, r := "sampling", "radio_slot_time";
    assert s[0] == 's' && r[0] == 'r' && r[6] == 's';
    if k == "calibration" || k == "channels" { assert k[0] == 'c'; }
    else if k == "radio_general" { assert k[0] == 'r' && k[6] == 'g'; }
    else if k == "radio_address" { assert k[0] == 'r' && k[6] == 'a'; }
    else if k == "radio_channels" { assert k[0] == 'r' && k[6] == 'c'; }
    else if k == "radio_down_channels" { assert k[0] == 'r' && k[6] == 'd'; }
    else if k == "radio_network_id" { assert k[0] == 'r' && k[6] == 'n'; }
    else if k == "radio_join" { assert k[0] == 'r' && k[6] == 'j'; }
    else if k == s { assert k[0] == 's'; }
  }

  /** A few letters tell the configuration keys apart. */
  lemma KeyLetters(k: string)
    requires k in CONFIG_KEYS
    ensures |k| >= 8 && (k[0] == 's' <==> k == "sampling")
    ensures k[0] == 'r' && k[6] == 's' <==> k == "radio_slot_time"
    ensures k[0] == 'c' && k[1] == 'h' <==> k == "channels"
  {
    if k == "sampling" { assert k[0] == 's'; }
    else if k == "calibration" { assert k[0] == 'c' && k[1] == 'a' && |k| == 11; }
    else if k == "channels" { assert k[0] == 'c' && k[1] == 'h'; }
    else if k == "radio_general" { assert k[0] == 'r' && k[6] == 'g'; }
    else if k == "radio_address" { assert k[0] == 'r' && k[6] == 'a'; }
    else if k == "radio_channels" { assert k[0] == 'r' && k[6] == 'c'; }
    else if k == "radio_down_channels" { assert k[0] == 'r' && k[6] == 'd'; }
    else if k == "radio_slot_time" { assert k[0] == 'r' && k[6] == 's'; }
    else if k == "radio_network_id" { assert k[0] == 'r' && k[6] == 'n'; }
    else if k == "radio_join" { assert k[0] == 'r' && k[6] == 'j'; }
  }

  /** A word without a dot starts a dotted text exactly if it starts its first key. */
  lemma WordStarts(word: string, key: string, rest: seq<string>)
    requires '.' !in word
    ensures "." + word <= "." + key + Dotted(rest) <==> word <= key
  {
    var text, dotted := "." + key + Dotted(rest), "." + word;
    assert rest != [] ==> text[1 + |key|] == '.';
    assert |key| < |word| ==> dotted[1 + |key|] == word[|key|] != '.';
    assert forall i :: 0 <= i < |word| ==> dotted[1 + i] == word[i];
    assert forall i :: 0 <= i < |key| ==> text[1 + i] == key[i];
    hide Dotted;
  }

  lemma SameStart(a: string, b: string, c: string)
    ensures a + b <= a + c <==> b <= c
  {
    if a + b <= a + c { assert b == (a + c)[|a|..][..|b|]; }
  }

  lemma WordStartsSecond(first: string, word: string, path: seq<string>)
    requires path != [] && path[0] == first && '.' !in word
    ensures ("." + first) + ("." + word) <= Dotted(path) <==> |path| > 1 && word <= path[1]
  {
    var rest := path[1..];
    SameStart("." + first, "." + word, Dotted(rest));
    if rest != [] { WordStarts(word, rest[0], rest[1..]); }
  }

  lemma OtherKey(k: string, text: string)
    requires k in CONFIG_KEYS && |text| > |k| && text[1..|k| + 1] == k
    ensures ".channels.enabled" <= text ==> k == "channels"
  {
    KeyLetters(k);
    hide CONFIG_KEYS;
    assert text[1] == text[1..|k| + 1][0] && text[2] == text[1..|k| + 1][1];
    assert ".channels.enabled"[1] == 'c' && ".channels.enabled"[2] == 'h';
  }

  lemma RestorableKey(path: seq<string>)
    requires path != []
    ensures Restorable(path) <==> "sampling" <= path[0] || "radio_slot_time" <= path[0]
                                  || (path[0] == "channels" && |path| > 1 && "enabled" <= path[1])
  {
  }

  /** The test on paths is the source's test on text: the dotted path starts with the dotted path of
      one of the three fields. */
  lemma RestorableIsTextPrefix(path: seq<string>)
    requires path != [] && path[0] in CONFIG_KEYS
    ensures Restorable(path) <==>
            ".sampling" <= Dotted(path) || ".radio_slot_time" <= Dotted(path) || ".channels.enabled" <= Dotted(path)
  {
    var k, text := path[0], Dotted(path);
    assert text == "." + k + Dotted(path[1..]);
    assert ".sampling" == "." + "sampling" && ".radio_slot_time" == "." + "radio_slot_time";
    assert ".channels.enabled" == ("." + "channels") + ("." + "enabled");
    KeyLetters(k);
    PrefixOfKey(k);
    hide *;
    WordStarts("sampling", k, path[1..]);
    WordStarts("radio_slot_time", k, path[1..]);
    if k == "channels" { WordStartsSecond("channels", "enabled", path); }
    OtherKey(k, text);
    RestorableKey(path);
  }

  lemma {:induction false} BlockedAre(d: seq<Change>, e: Change)
    ensures e in Blocked(d) <==> e in d && !Restorable(e.path)
    decreases |d|
  {
    hide Restorable;
    if d != [] {
      BlockedAre(d[1..], e);
      assert e in d <==> e == d[0] || e in d[1..];
    }
  }

  lemma PlainAt(c: Config, k: string)
    ensures At(Plain(c), [k]) == if k in c then Some(WithoutHeader(c[k])) else None
  {
    assert [k][1..] == [];
  }

  lemma PlainAt2(c: Config, k: string, k2: string)
    requires k in c && c[k].Obj?
    ensures At(Plain(c), [k, k2]) == if k2 in c[k].fields && k2 != "header" then Some(c[k].fields[k2]) else None
  {
    assert [k, k2][1..] == [k2] && [k2][1..] == [];
    var w := WithoutHeader(c[k]);
    assert At(Plain(c), [k, k2]) == At(w, [k2]);
    assert k2 in w.fields <==> k2 in c[k].fields && k2 != "header";
    if k2 in w.fields {
      assert At(w, [k2]) == At(w.fields[k2], []);
    }
  }

  predicate SameField(c: Config, t: Config, k: string)
    requires Shaped(c) && Shaped(t)
  {
    var a, b := c["channels"].fields, t["channels"].fields;
    (k in a <==> k in b) && (k in a ==> a[k] == b[k])
  }

  /** The sides agree wherever the text rule looks: on all fields but the three, and on all channel
      fields whose name does not start with "enabled".  Headers do not matter. */
  ghost predicate AgreeElsewhere(c: Config, t: Config)
    requires Shaped(c) && Shaped(t)
  {
    && (forall k :: k in CONFIG_KEYS && k != "sampling" && k != "radio_slot_time" && k != "channels" ==>
          k in c && k in t && WithoutHeader(c[k]) == WithoutHeader(t[k]))
    && (forall k :: !("enabled" <= k) && k != "header" ==> SameField(c, t, k))
  }

  /** They agree also on the channel fields that only start like "enabled". */
  ghost predicate AgreeOnNamesakes(c: Config, t: Config)
    requires Shaped(c) && Shaped(t)
  {
    forall k :: "enabled" <= k && k != "enabled" ==> SameField(c, t, k)
  }

  /** A place where the plain configurations differ has an entry that starts like it. */
  lemma DifferenceHasEntry(current: Snapshot, target: Snapshot, rel: seq<string>) returns (i: nat)
    requires At(Plain(current.config), rel) != At(Plain(target.config), rel) && 1 <= |rel| <= 2
    ensures i < |DiffSnapshots(current, target)|
    ensures var path := DiffSnapshots(current, target)[i].path;
            path == [] || (path[0] == rel[0] && (|path| >= 2 && |rel| == 2 ==> path[1] == rel[1]))
  {
    hide WalkDiff, Plain;
    i := DiffersIsCovered(Plain(current.config), Plain(target.config), [], rel);
    assert [] + rel == rel;
  }

  lemma OtherFieldsAgree(current: Snapshot, target: Snapshot, k: string)
    requires ValidConfig(current.config) && ValidConfig(target.config)
    requires AllRestorable(DiffSnapshots(current, target))
    requires k in CONFIG_KEYS && k != "sampling" && k != "radio_slot_time" && k != "channels"
    ensures WithoutHeader(current.config[k]) == WithoutHeader(target.config[k])
  {
    PlainAt(current.config, k);
    PlainAt(target.config, k);
    PrefixOfKey(k);
    hide WalkDiff, ValidConfig, WithoutHeader;
    if At(Plain(current.config), [k]) != At(Plain(target.config), [k]) {
      var i := DifferenceHasEntry(current, target, [k]);
      assert false;
    }
  }

  lemma ChannelsPrefix()
    ensures !("sampling" <= "channels") && !("radio_slot_time" <= "channels")
  {
    assert "sampling"[0] == 's' && "radio_slot_time"[0] == 'r' && "channels"[0] == 'c';
  }

  lemma OtherChannelFieldsAgree(current: Snapshot, target: Snapshot, k: string)
    requires ValidConfig(current.config) && ValidConfig(target.config)
    requires AllRestorable(DiffSnapshots(current, target))
    requires !("enabled" <= k) && k != "header"
    ensures SameField(current.config, target.config, k)
  {
    PlainAt2(current.config, "channels", k);
    PlainAt2(target.config, "channels", k);
    ChannelsPrefix();
    hide WalkDiff;
    if At(Plain(current.config), ["channels", k]) != At(Plain(target.config), ["channels", k]) {
      var i := DifferenceHasEntry(current, target, ["channels", k]);
      assert false;
    }
  }

  lemma NothingBlockedAgrees(current: Snapshot, target: Snapshot)
    requires ValidConfig(current.config) && ValidConfig(target.config)
    requires AllRestorable(DiffSnapshots(current, target))
    ensures AgreeElsewhere(current.config, target.config)
  {
    var c, t := current.config, target.config;
    assert c.Keys == t.Keys == CONFIG_KEYS;
    hide DiffSnapshots, ValidConfig, Restorable, SameField, WithoutHeader, CONFIG_KEYS;
    forall k | k in CONFIG_KEYS && k != "sampling" && k != "radio_slot_time" && k != "channels"
      ensures k in c && k in t && WithoutHeader(c[k]) == WithoutHeader(t[k])
    {
      OtherFieldsAgree(current, target, k);
    }
    forall k | !("enabled" <= k) && k != "header" ensures SameField(c, t, k) {
      OtherChannelFieldsAgree(current, target, k);
    }
  }

  /** The roots and the channel fields of both sides are objects, so no entry stops there. */
  lemma EntryPathLength(current: Snapshot, target: Snapshot, i: nat)
    requires Valid(current) && Valid(target) && i < |DiffSnapshots(current, target)|
    ensures var path := DiffSnapshots(current, target)[i].path;
            path != [] && (path[0] == "channels" ==> |path| > 1)
  {
    var e := DiffSnapshots(current, target)[i];
    EntriesAreReal(Plain(current.config), Plain(target.config), [], i);
    assert e.path[0..] == e.path;
    hide WalkDiff;
    if |e.path| == 1 {
      assert e.path == [e.path[0]];
      PlainAt(current.config, e.path[0]);
      PlainAt(target.config, e.path[0]);
    }
  }

  lemma NotRestorable(path: seq<string>)
    requires path != [] && !Restorable(path) && (path[0] == "channels" ==> |path| > 1)
    ensures path[0] != "sampling" && path[0] != "radio_slot_time"
    ensures path[0] == "channels" ==> !("enabled" <= path[1])
  {
    assert "sampling" <= "sampling" && "radio_slot_time" <= "radio_slot_time";
  }

  lemma SameStep(c: Config, t: Config, path: seq<string>)
    requires path != [] && (path[0] in c <==> path[0] in t)
    requires path[0] in c ==> WithoutHeader(c[path[0]]) == WithoutHeader(t[path[0]])
    ensures At(Plain(c), path) == At(Plain(t), path)
  {
    hide WithoutHeader;
  }

  lemma ChannelElsewhere(c: Config, t: Config, path: seq<string>)
    requires Shaped(c) && Shaped(t) && |path| > 1 && path[0] == "channels"
    requires path[1] != "header" ==> SameField(c, t, path[1])
    ensures At(Plain(c), path) == At(Plain(t), path)
  {
    var k := path[1];
    assert path[1..][0] == k;
    assert k in c["channels"].fields - {"header"} <==> k in c["channels"].fields && k != "header";
    assert k in t["channels"].fields - {"header"} <==> k in t["channels"].fields && k != "header";
  }

  /** An entry lies where the sides differ, and elsewhere they agree. */
  lemma EntryIsRestorable(current: Snapshot, target: Snapshot, i: nat)
    requires Valid(current) && Valid(target) && AgreeElsewhere(current.config, target.config)
    requires i < |DiffSnapshots(current, target)|
    ensures Restorable(DiffSnapshots(current, target)[i].path)
  {
    var e := DiffSnapshots(current, target)[i];
    var c, t := current.config, target.config;
    EntriesAreReal(Plain(c), Plain(t), [], i);
    assert e.path[0..] == e.path;
    EntryPathLength(current, target, i);
    assert c.Keys == t.Keys == CONFIG_KEYS;
    hide WalkDiff, Valid, Plain, At, Restorable, CONFIG_KEYS, SameField, WithoutHeader, Shaped;
    if !Restorable(e.path) {
      NotRestorable(e.path);
      if e.path[0] == "channels" {
        ChannelElsewhere(c, t, e.path);
      } else {
        SameStep(c, t, e.path);
      }
      assert false;
    }
  }

  /** Nothing is blocked if and only if the two sides agree wherever the text rule looks. */
  lemma BlockedIff(current: Snapshot, target: Snapshot)
    requires Valid(current) && Valid(target)
    ensures Blocked(DiffSnapshots(current, target)) == [] <==> AgreeElsewhere(current.config, target.config)
  {
    var d := DiffSnapshots(current, target);
    BlockedEmptyIff(d);
    assert ValidConfig(current.config) && ValidConfig(target.config);
    var c, t := current.config, target.config;
    hide *;
    if Blocked(d) == [] {
      NothingBlockedAgrees(current, target);
    }
    if AgreeElsewhere(c, t) {
      forall i | 0 <= i < |d| ensures Restorable(d[i].path) {
        EntryIsRestorable(current, target, i);
      }
    }
  }

  lemma PlainFields(a: Config, b: Config, k: string)
    requires Plain(a) == Plain(b)
    ensures k in a <==> k in b
    ensures k in a ==> WithoutHeader(a[k]) == WithoutHeader(b[k]) == Plain(a).fields[k]
  {
    assert Plain(a).fields == Plain(b).fields;
    assert k in Plain(a).fields <==> k in a;
    assert k in Plain(b).fields <==> k in b;
  }

  lemma ReplacedFields(c: Config, t: Config)
    requires ValidConfig(c) && ValidConfig(t)
    ensures var r := WithValues(c, ValuesOf(t));
            && r.Keys == c.Keys == t.Keys == CONFIG_KEYS && "channels" in CONFIG_KEYS
            && r["sampling"] == t["sampling"] && r["radio_slot_time"] == t["radio_slot_time"]
            && forall k :: k in c && k != "sampling" && k != "radio_slot_time" && k != "channels" ==> r[k] == c[k]
  {
    hide IsAxes, AnyAxis, NumIn;
  }

  lemma ChannelsReplaced(c: Config, t: Config)
    requires Shaped(c) && Shaped(t)
    ensures WithoutHeader(WithValues(c, ValuesOf(t))["channels"]) == WithoutHeader(t["channels"]) <==>
            forall k :: k != "enabled" && k != "header" ==> SameField(c, t, k)
  {
    var cf, tf := c["channels"].fields, t["channels"].fields;
    var rf := cf["enabled" := tf["enabled"]];
    var a, b := rf - {"header"}, tf - {"header"};
    if a == b {
      forall k | k != "enabled" && k != "header" ensures SameField(c, t, k) {
        assert (k in a <==> k in cf) && (k in b <==> k in tf);
      }
    }
    if forall k :: k != "enabled" && k != "header" ==> SameField(c, t, k) {
      forall k ensures (k in a <==> k in b) && (k in a ==> a[k] == b[k]) {
        assert k != "enabled" && k != "header" ==> SameField(c, t, k);
      }
      assert a == b;
    }
  }

  lemma ReplacedAgree(c: Config, t: Config)
    requires ValidConfig(c) && ValidConfig(t) && Plain(WithValues(c, ValuesOf(t))) == Plain(t)
    ensures AgreeElsewhere(c, t) && AgreeOnNamesakes(c, t)
  {
    var r := WithValues(c, ValuesOf(t));
    ReplacedFields(c, t);
    ChannelsReplaced(c, t);
    hide ValidConfig, WithValues, CONFIG_KEYS, SameField, WithoutHeader, ValuesOf, Shaped, Plain;
    forall k | k in t ensures k in c && WithoutHeader(r[k]) == WithoutHeader(t[k]) { PlainFields(r, t, k); }
  }

  lemma AgreeReplaced(c: Config, t: Config)
    requires ValidConfig(c) && ValidConfig(t) && AgreeElsewhere(c, t) && AgreeOnNamesakes(c, t)
    ensures Plain(WithValues(c, ValuesOf(t))) == Plain(t)
  {
    var r := WithValues(c, ValuesOf(t));
    ReplacedFields(c, t);
    ChannelsReplaced(c, t);
    hide ValidConfig, WithValues, CONFIG_KEYS, SameField, WithoutHeader, ValuesOf, Shaped;
    forall k | k in t ensures WithoutHeader(r[k]) == WithoutHeader(t[k]) {
    }
    assert Plain(r).fields == Plain(t).fields;
  }

  /** Writing the target's three values gives the target, headers aside, if and only if the sides
      agree wherever the text rule looks and on the namesakes of "enabled" too. */
  lemma ReplacedIff(c: Config, t: Config)
    requires ValidConfig(c) && ValidConfig(t)
    ensures Plain(WithValues(c, ValuesOf(t))) == Plain(t) <==> AgreeElsewhere(c, t) && AgreeOnNamesakes(c, t)
  {
    hide WithValues, AgreeElsewhere, AgreeOnNamesakes, Plain, ValuesOf;
    if Plain(WithValues(c, ValuesOf(t))) == Plain(t) {
      ReplacedAgree(c, t);
    } else if AgreeElsewhere(c, t) && AgreeOnNamesakes(c, t) {
      AgreeReplaced(c, t);
    }
  }

  lemma PlanParts(current: Snapshot, target: Snapshot, validated: set<OpName>)
    requires BuildRestorePlan(current, target, validated).Success?
    ensures Valid(current) && Valid(target)
    ensures var plan := BuildRestorePlan(current, target, validated).value;
            && plan.blocked == Blocked(DiffSnapshots(current, target))
            && (plan.canApply <==> plan.operations != [] && plan.blocked == []
                                   && forall op :: op in plan.operations ==> op.name in validated)
  {
    hide PlanField, DiffSnapshots, Blocked, Valid, ValuesOf;
  }

  lemma OperationsEmptyIff(current: Snapshot, target: Snapshot, validated: set<OpName>)
    requires BuildRestorePlan(current, target, validated).Success?
    ensures BuildRestorePlan(current, target, validated).value.operations == [] <==>
            ValuesOf(current.config) == ValuesOf(target.config)
  {
    hide Encode, WalkDiff, Blocked, Valid, ValuesOf;
  }

  /** Exactly when a plan can be applied: there is something to do, all of it is hardware-validated,
      and the two sides agree wherever the text rule looks. */
  lemma CanApplyIff(current: Snapshot, target: Snapshot, validated: set<OpName>)
    requires BuildRestorePlan(current, target, validated).Success?
    ensures var plan := BuildRestorePlan(current, target, validated).value;
            plan.canApply <==>
              && ValuesOf(current.config) != ValuesOf(target.config)
              && (forall op :: op in plan.operations ==> op.name in validated)
              && AgreeElsewhere(current.config, target.config)
  {
    OperationsEmptyIff(current, target, validated);
    PlanParts(current, target, validated);
    BlockedIff(current, target);
    hide *;
  }

  /** Applying operations one by one. */
  function Replay(v: Values, operations: seq<Operation>): Values
    decreases |operations|
  {
    if operations == [] then v else Replay(v.Set(operations[0].name, operations[0].target), operations[1..])
  }

  lemma ReplayField(v: Values, name: OpName, c: Values, t: Values)
    requires PlanField(name, c, t).Success? && v.Get(name) == c.Get(name)
    ensures Replay(v, PlanField(name, c, t).value) == v.Set(name, t.Get(name))
  {
    hide Encode;
    var ops := PlanField(name, c, t).value;
    if ops != [] { assert ops[1..] == []; }
  }

  lemma {:induction false} ReplayConcat(v: Values, a: seq<Operation>, b: seq<Operation>)
    ensures Replay(v, a + b) == Replay(Replay(v, a), b)
    decreases |a|
  {
    if a == [] {
      assert a + b == b;
    } else {
      ReplayConcat(v.Set(a[0].name, a[0].target), a[1..], b);
      assert (a + b)[1..] == a[1..] + b;
    }
  }

  lemma ReplayReachesTarget(current: Snapshot, target: Snapshot, validated: set<OpName>)
    requires BuildRestorePlan(current, target, validated).Success?
    ensures Replay(ValuesOf(current.config), BuildRestorePlan(current, target, validated).value.operations)
            == ValuesOf(target.config)
  {
    var c, t := ValuesOf(current.config), ValuesOf(target.config);
    var s, a, l := PlanField(Sampling, c, t), PlanField(Channels, c, t), PlanField(SlotTime, c, t);
    assert BuildRestorePlan(current, target, validated).value.operations == s.value + a.value + l.value;
    hide BuildRestorePlan, ValuesOf, Encode;
    var c1 := Replay(c, s.value);
    var c2 := Replay(c1, a.value);
    ReplayField(c, Sampling, c, t);
    ReplayField(c1, Channels, c, t);
    ReplayField(c2, SlotTime, c, t);
    ReplayConcat(c, s.value, a.value);
    ReplayConcat(c, s.value + a.value, l.value);
  }

  /** Plan sufficiency: replaying an applicable plan on the current configuration leaves no
      difference to the target, if and only if no namesake of "enabled" differs. */
  lemma PlanSuffices(current: Snapshot, target: Snapshot, validated: set<OpName>)
    requires BuildRestorePlan(current, target, validated).Success?
    requires BuildRestorePlan(current, target, validated).value.canApply
    ensures var plan := BuildRestorePlan(current, target, validated).value;
            var replayed := WithValues(current.config, Replay(ValuesOf(current.config), plan.operations));
            WalkDiff(Plain(replayed), Plain(target.config), []) == []
            <==> AgreeOnNamesakes(current.config, target.config)
  {
    CanApplyIff(current, target, validated);
    ReplayReachesTarget(current, target, validated);
    PlanParts(current, target, validated);
    assert ValidConfig(current.config) && ValidConfig(target.config);
    hide *;
    ReplacedIff(current.config, target.config);
    DiffEmptyIffEqual(Plain(WithValues(current.config, ValuesOf(target.config))), Plain(target.config), []);
  }

  /** The channel fields the decoder produces have no namesakes of "enabled", so there a plan
      that can be applied suffices. */
  lemma DecodedChannelsAgree(c: Config, t: Config)
    requires Shaped(c) && Shaped(t) && DecodedChannels(c) && DecodedChannels(t)
    ensures AgreeOnNamesakes(c, t)
  {
  }

  const ALL_AXES := Obj(map["x" := Bool(true), "y" := Bool(true), "z" := Bool(true)])

  const EMPTY_FIELDS: Config :=
    map["sampling" := Null, "calibration" := Null, "channels" := Null, "radio_general" := Null, "radio_address" := Null,
        "radio_channels" := Null, "radio_down_channels" := Null, "radio_slot_time" := Num(60),
        "radio_network_id" := Null, "radio_join" := Null]

  function NamesakeFields(extra: bool): map<string, Json> {
    map["enabled" := ALL_AXES, "enabled_extra" := Bool(extra)]
  }

  /** A valid configuration with a namesake of "enabled". */
  function WithNamesake(sampling: int, extra: bool): Config {
    EMPTY_FIELDS["sampling" := Num(sampling)]["channels" := Obj(NamesakeFields(extra))]
  }

  ghost predicate SlipsThrough(current: Snapshot, target: Snapshot) {
    var built := BuildRestorePlan(current, target, {Sampling});
    && built.Success? && built.value.canApply
    && WalkDiff(Plain(WithValues(current.config, Replay(ValuesOf(current.config), built.value.operations))),
                Plain(target.config), []) != []
  }

  lemma OneOperation(current: Snapshot, target: Snapshot)
    requires BuildRestorePlan(current, target, {Sampling}).Success?
    requires ValuesOf(current.config).enabled == ValuesOf(target.config).enabled
    requires ValuesOf(current.config).slotTime == ValuesOf(target.config).slotTime
    ensures forall op :: op in BuildRestorePlan(current, target, {Sampling}).value.operations ==> op.name == Sampling
  {
    hide Encode, WalkDiff, Blocked, Valid, ValuesOf;
  }

  lemma SlipsOnNamesakes(current: Snapshot, target: Snapshot)
    requires Valid(current) && Valid(target) && current.device == target.device
    requires ValuesOf(current.config) == ValuesOf(target.config).(sampling := ValuesOf(current.config).sampling)
    requires ValuesOf(current.config).sampling != ValuesOf(target.config).sampling
    requires AgreeElsewhere(current.config, target.config) && !AgreeOnNamesakes(current.config, target.config)
    ensures SlipsThrough(current, target)
  {
    assert current.config["radio_slot_time"] == target.config["radio_slot_time"];
    hide WalkDiff, BuildRestorePlan, Plain, Replay, Valid, AgreeElsewhere, AgreeOnNamesakes, ValuesOf, WithValues,
         Shaped;
    PlanExistsIff(current, target, {Sampling});
    OneOperation(current, target);
    CanApplyIff(current, target, {Sampling});
    PlanSuffices(current, target, {Sampling});
  }

  lemma EmptyFields()
    ensures EMPTY_FIELDS.Keys == CONFIG_KEYS && EMPTY_FIELDS["radio_slot_time"] == Num(60)
    ensures "sampling" in CONFIG_KEYS && "channels" in CONFIG_KEYS && "radio_slot_time" in CONFIG_KEYS
  {
  }

  lemma NamesakeIsValid(sampling: int, extra: bool)
    requires 1 <= sampling <= 0xFFFFFF
    ensures ValidConfig(WithNamesake(sampling, extra))
    ensures ValuesOf(WithNamesake(sampling, extra)) == Values(Num(sampling), ALL_AXES, Num(60))
  {
    EmptyFields();
    assert IsAxes(ALL_AXES) && AnyAxis(AxesOf(ALL_AXES));
    assert WithNamesake(sampling, extra).Keys == CONFIG_KEYS;
    hide CONFIG_KEYS, EMPTY_FIELDS, ALL_AXES, IsAxes, AnyAxis, AxesOf;
  }

  lemma NamesakesDiffer()
    ensures Shaped(WithNamesake(300, false)) && Shaped(WithNamesake(600, true))
    ensures AgreeElsewhere(WithNamesake(300, false), WithNamesake(600, true))
    ensures !AgreeOnNamesakes(WithNamesake(300, false), WithNamesake(600, true))
  {
    var c, t := WithNamesake(300, false), WithNamesake(600, true);
    EmptyFields();
    hide CONFIG_KEYS, EMPTY_FIELDS, ALL_AXES, WithoutHeader;
    assert c["channels"] == Obj(NamesakeFields(false)) && t["channels"] == Obj(NamesakeFields(true));
    assert "enabled" <= "enabled" && "enabled" <= "enabled_extra" && "enabled_extra" != "enabled";
    assert !SameField(c, t, "enabled_extra");
  }

  lemma NamesakesSlip(current: Snapshot, target: Snapshot)
    requires current.device == target.device && ValidDevice(current.device)
    requires current.config == WithNamesake(300, false) && target.config == WithNamesake(600, true)
    ensures SlipsThrough(current, target)
  {
    hide WithNamesake, ValidConfig, ValidDevice, SlipsThrough, ValuesOf, Shaped, AgreeElsewhere, AgreeOnNamesakes;
    NamesakeIsValid(300, false);
    NamesakeIsValid(600, true);
    NamesakesDiffer();
    SlipsOnNamesakes(current, target);
  }

  /** The condition can fail: here the plan can be applied, and what it leaves is not the target. */
  lemma NamesakeSlipsThrough()
    ensures exists current: Snapshot, target: Snapshot :: SlipsThrough(current, target)
  {
    var id := DeviceId(1, 0x4E, 1, 2, 81, 0);
    assert ValidDevice(id);
    hide *;
    NamesakesSlip(Snapshot(id, WithNamesake(300, false)), Snapshot(id, WithNamesake(600, true)));
  }
}
