/** `ExampleHardwareInterface` of src/smax_daemon/example_hardware_interface.py: the daemon's
    view of the hardware. It holds the flattened `logged_data` table, reads every entry once per
    logging cycle, and applies control updates delivered by SMA-X callbacks.

    The hardware lock is not modelled: each operation below is one atomic step. Creating the
    hardware object is external, so its outcome is a parameter, and so is Python's `repr` of an
    exception. */
module HardwareInterface {
  import opened Wrappers
  import opened ConfigTree
  import opened Resolver
  import Dicts
  import Flatten

  /** A value of the dict `logging_action` returns: a reading, or one of the status strings. */
  datatype Logged = Got(reading: Reading) | Status(text: string)

  /** The interface's state: `_hardware`, `_hardware_config`, `_hardware_error`, `_hardware_data`. */
  datatype Interface = Interface(
    hardware: Option<Hardware>,
    hardwareConfig: Option<Value>,
    error: string,
    data: Dicts.Dict<Value>)

  /** A pub/sub notification; only its payload reaches the hardware. */
  datatype Message = Message(data: Reading, origin: string)

  /** `configure(config)`, the daemon-side part: keep `config["config"]` for the hardware and
      flatten `config["logged_data"]`. A configuration that is not a dict has no `keys`, and a
      `logged_data` that is not a dict has no `items`. */
  function Configure(iface: Interface, config: Value, metadata: seq<string>): (r: Result<Interface, Fault>)
    ensures r.Ok? <==> config.Map? && (Dicts.HasKey(config.entries, "logged_data") ==> Dicts.Get(config.entries, "logged_data").value.Map?)
    ensures !config.Map? ==> r == Err(AttributeError("keys"))
    ensures config.Map? && Dicts.HasKey(config.entries, "logged_data") && !Dicts.Get(config.entries, "logged_data").value.Map? ==>
      r == Err(AttributeError("items"))
    ensures r.Ok? ==> r.value.hardware == iface.hardware && r.value.error == iface.error
    ensures r.Ok? && !Dicts.HasKey(config.entries, "logged_data") ==> r.value.data == iface.data
    ensures r.Ok? && Dicts.HasKey(config.entries, "logged_data") ==>
      r.value.data == Flatten.Flatten(Dicts.Get(config.entries, "logged_data").value.entries, "", metadata)
    ensures r.Ok? && Dicts.HasKey(config.entries, "logged_data") ==>
      Dicts.UniqueKeys(r.value.data) && forall i :: 0 <= i < |r.value.data| ==> Flatten.Emitted(r.value.data[i].1, metadata)
    ensures r.Ok? && Dicts.HasKey(config.entries, "config") ==> r.value.hardwareConfig == Dicts.Get(config.entries, "config")
    ensures r.Ok? && !Dicts.HasKey(config.entries, "config") ==> r.value.hardwareConfig == iface.hardwareConfig
  {
    if !config.Map? then Err(AttributeError("keys"))
    else
      var entries := config.entries;
      var withConfig :=
        if Dicts.HasKey(entries, "config") then iface.(hardwareConfig := Dicts.Get(entries, "config")) else iface;
      if !Dicts.HasKey(entries, "logged_data") then Ok(withConfig)
      else
        var logged := Dicts.Get(entries, "logged_data").value;
        if !logged.Map? then Err(AttributeError("items"))
        else Ok(withConfig.(data := Flatten.Flatten(logged.entries, "", metadata)))
  }

  /** `connect_hardware()`: `outcome` is what constructing the hardware object gave. */
  function ConnectHardware(iface: Interface, outcome: Result<Hardware, Fault>, repr: Fault -> string): (r: Interface)
    ensures r.hardware.Some? <==> outcome.Ok?
    ensures outcome.Ok? ==> r.hardware == Some(outcome.value) && r.error == "None"
    ensures outcome.Err? ==> r.error == repr(outcome.error)
    ensures r.data == iface.data && r.hardwareConfig == iface.hardwareConfig
  {
    match outcome
    case Ok(hw) => iface.(hardware := Some(hw), error := "None")
    case Err(e) => iface.(hardware := None, error := repr(e))
  }

  /** `disconnect_hardware()`. */
  function DisconnectHardware(iface: Interface): (r: Interface)
    ensures r.hardware.None? && r.error == "disconnected"
    ensures r.data == iface.data && r.hardwareConfig == iface.hardwareConfig
  {
    iface.(hardware := None, error := "disconnected")
  }

  /** The record a failed cycle returns. */
  function ErrorRecord(error: string): Dicts.Dict<Logged> {
    [("comm_status", Status("connection error")), ("comm_error", Status(error))]
  }

  /** The readings as the loop stores them, then the two status entries. */
  function GoodRecord(readings: seq<(string, Reading)>): Dicts.Dict<Logged> {
    var logged := seq(|readings|, i requires 0 <= i < |readings| => (readings[i].0, Got(readings[i].1)));
    Dicts.Update(Dicts.Update([], logged), [("comm_status", Status("good")), ("comm_error", Status("None"))])
  }

  /** `logging_action()`: reconnect if the hardware is absent, then read every flattened entry.
      The cycle is all or nothing: any exception replaces the whole result with the error record
      and drops the hardware, leaving `_hardware_error` as it was. */
  function LoggingAction(iface: Interface, w: World, connect: Result<Hardware, Fault>, repr: Fault -> string)
    : (r: (Interface, Dicts.Dict<Logged>))
    ensures r.0.data == iface.data && r.0.hardwareConfig == iface.hardwareConfig
    ensures Dicts.Get(r.1, "comm_status") == Some(Status("good")) <==> r.0.hardware.Some?
    ensures r.0.hardware.Some? ==> Dicts.Get(r.1, "comm_error") == Some(Status("None"))
    ensures r.0.hardware.Some? ==> forall i :: 0 <= i < |iface.data| ==> Dicts.HasKey(r.1, iface.data[i].0)
    ensures r.0.hardware.None? ==> exists e :: r.1 == ErrorRecord(e)
  {
    var current := if iface.hardware.None? then ConnectHardware(iface, connect, repr) else iface;
    if current.hardware.None? then (current, ErrorRecord("Not Connected"))
    else
      match ResolveAll(w, current.hardware.value, current.data)
      case Err(e) => (current.(hardware := None), ErrorRecord(repr(e)))
      case Ok(readings) =>
        GoodRecordKeys(readings, current.data);
        (current, GoodRecord(readings))
  }

  /** A good record carries every key that was read, "good" and "None". */
  lemma GoodRecordKeys(readings: seq<(string, Reading)>, data: Dicts.Dict<Value>)
    requires |readings| == |data|
    requires forall i :: 0 <= i < |data| ==> readings[i].0 == data[i].0
    ensures Dicts.Get(GoodRecord(readings), "comm_status") == Some(Status("good"))
    ensures Dicts.Get(GoodRecord(readings), "comm_error") == Some(Status("None"))
    ensures forall i :: 0 <= i < |data| ==> Dicts.HasKey(GoodRecord(readings), data[i].0)
  {
    var logged := seq(|readings|, i requires 0 <= i < |readings| => (readings[i].0, Got(readings[i].1)));
    var statuses := [("comm_status", Status("good")), ("comm_error", Status("None"))];
    Dicts.UpdateGet(Dicts.Update([], logged), statuses, "comm_status");
    Dicts.UpdateGet(Dicts.Update([], logged), statuses, "comm_error");
    forall i | 0 <= i < |data| ensures Dicts.HasKey(GoodRecord(readings), data[i].0) {
      Dicts.HasKeyIndex(logged, i);
      Dicts.UpdateGet([], logged, data[i].0);
      Dicts.LastValueHasKey(logged, data[i].0);
      Dicts.UpdateGet(Dicts.Update([], logged), statuses, data[i].0);
      Dicts.LastValueHasKey(statuses, data[i].0);
    }
  }

  /** A cycle in which some entry fails, whether the hardware was there at the start or was just
      reconnected, returns exactly the error record for the first failure and drops the hardware,
      leaving the error text as it stood before the read. */
  lemma CycleFailure(iface: Interface, w: World, connect: Result<Hardware, Fault>, repr: Fault -> string)
    requires var cur := if iface.hardware.None? then ConnectHardware(iface, connect, repr) else iface;
      cur.hardware.Some? && ResolveAll(w, cur.hardware.value, iface.data).Err?
    ensures var cur := if iface.hardware.None? then ConnectHardware(iface, connect, repr) else iface;
      LoggingAction(iface, w, connect, repr)
        == (cur.(hardware := None), ErrorRecord(repr(ResolveAll(w, cur.hardware.value, iface.data).error)))
    ensures iface.hardware.None? ==> LoggingAction(iface, w, connect, repr).0.error == "None"
  {
  }

  /** With hardware, whether already held or just reconnected, and every logged key resolving,
      the cycle keeps that interface unchanged and returns the good record of the readings. */
  lemma CycleSuccess(iface: Interface, w: World, connect: Result<Hardware, Fault>, repr: Fault -> string)
    requires var cur := if iface.hardware.None? then ConnectHardware(iface, connect, repr) else iface;
      cur.hardware.Some? && ResolveAll(w, cur.hardware.value, iface.data).Ok?
    ensures var cur := if iface.hardware.None? then ConnectHardware(iface, connect, repr) else iface;
      LoggingAction(iface, w, connect, repr)
        == (cur, GoodRecord(ResolveAll(w, cur.hardware.value, iface.data).value))
  {
  }

  /** Without hardware and with a failing reconnect, the cycle reports "Not Connected" and keeps
      the reconnect's error text. */
  lemma CycleNotConnected(iface: Interface, w: World, connect: Result<Hardware, Fault>, repr: Fault -> string)
    requires iface.hardware.None? && connect.Err?
    ensures LoggingAction(iface, w, connect, repr).1 == ErrorRecord("Not Connected")
    ensures LoggingAction(iface, w, connect, repr).0.error == repr(connect.error)
  {
  }

  /** In a good cycle over a real dict, every entry other than the two status keys holds the
      reading resolved for it. */
  lemma CycleReadings(iface: Interface, w: World, connect: Result<Hardware, Fault>, repr: Fault -> string, i: nat)
    requires Dicts.UniqueKeys(iface.data)
    requires i < |iface.data|
    requires iface.data[i].0 != "comm_status" && iface.data[i].0 != "comm_error"
    requires LoggingAction(iface, w, connect, repr).0.hardware.Some?
    ensures var hw := LoggingAction(iface, w, connect, repr).0.hardware.value;
      Resolve(w, hw, iface.data[i].0, iface.data[i].1).Ok?
      && Dicts.Get(LoggingAction(iface, w, connect, repr).1, iface.data[i].0)
         == Some(Got(Resolve(w, hw, iface.data[i].0, iface.data[i].1).value))
  {
    var current := if iface.hardware.None? then ConnectHardware(iface, connect, repr) else iface;
    var hw := current.hardware.value;
    var readings := ResolveAll(w, hw, iface.data).value;
    var logged := seq(|readings|, j requires 0 <= j < |readings| => (readings[j].0, Got(readings[j].1)));
    var statuses := [("comm_status", Status("good")), ("comm_error", Status("None"))];
    var k := iface.data[i].0;
    Dicts.UpdateGet(Dicts.Update([], logged), statuses, k);
    Dicts.UpdateGet([], logged, k);
    assert forall j :: 0 <= j < |logged| ==> logged[j].0 == iface.data[j].0;
    UniqueKeysSameKeys(iface.data, logged);
    Dicts.FromItemsOfDict(logged);
    Dicts.GetItem(logged, i);
  }

  /** Two lists with the same keys position by position are both dicts or both not. */
  lemma {:induction false} UniqueKeysSameKeys<U, V>(a: Dicts.Dict<U>, b: Dicts.Dict<V>)
    requires |a| == |b|
    requires forall j :: 0 <= j < |a| ==> a[j].0 == b[j].0
    requires Dicts.UniqueKeys(a)
    ensures Dicts.UniqueKeys(b)
  {
    if |a| > 0 {
      UniqueKeysSameKeys(a[1..], b[1..]);
      SameKeysHasKey(a[1..], b[1..], a[0].0);
    }
  }

  lemma {:induction false} SameKeysHasKey<U, V>(a: Dicts.Dict<U>, b: Dicts.Dict<V>, k: string)
    requires |a| == |b|
    requires forall j :: 0 <= j < |a| ==> a[j].0 == b[j].0
    ensures Dicts.HasKey(a, k) <==> Dicts.HasKey(b, k)
  {
    if |a| > 0 {
      SameKeysHasKey(a[1..], b[1..], k);
    }
  }

  /** After `disconnect_hardware`, the next cycle reconnects first: a failed reconnect reports
      "Not Connected", a successful one reads from the new hardware. */
  lemma DisconnectThenCycle(iface: Interface, w: World, connect: Result<Hardware, Fault>, repr: Fault -> string)
    ensures connect.Err? ==> LoggingAction(DisconnectHardware(iface), w, connect, repr).1 == ErrorRecord("Not Connected")
    ensures connect.Ok? && ResolveAll(w, connect.value, iface.data).Ok?
      ==> LoggingAction(DisconnectHardware(iface), w, connect, repr).0.hardware == Some(connect.value)
  {
  }

  /** Assigning a hardware attribute under the lock; `failure` is what the assignment raised, if
      anything, and it is recorded as the hardware error. Without hardware nothing happens. */
  function SetHardwareAttribute(iface: Interface, name: string, value: Reading, failure: Option<Fault>, repr: Fault -> string)
    : (r: Interface)
    ensures iface.hardware.None? ==> r == iface
    ensures r.data == iface.data && r.hardwareConfig == iface.hardwareConfig && r.hardware.Some? == iface.hardware.Some?
    ensures failure.Some? ==> r.hardware == iface.hardware
    ensures iface.hardware.Some? && failure.Some? ==> r.error == repr(failure.value)
    ensures failure.None? ==> r.error == iface.error
    ensures iface.hardware.Some? && failure.None? ==> r.hardware == Some(Hardware(iface.hardware.value.attrs[name := value]))
  {
    if iface.hardware.None? then iface
    else match failure
      case None => iface.(hardware := Some(Hardware(iface.hardware.value.attrs[name := value])))
      case Some(e) => iface.(error := repr(e))
  }

  /** After a successful update, the hardware attribute reads back as the message data (unless
      the interface shadows the name), and every other name reads as before. */
  lemma SetThenRead(iface: Interface, w: World, name: string, value: Reading, repr: Fault -> string, other: string)
    requires iface.hardware.Some?
    requires name !in w.own
    requires other != name
    ensures LookupFirst(w, SetHardwareAttribute(iface, name, value, None, repr).hardware, name) == Ok(value)
    ensures LookupFirst(w, SetHardwareAttribute(iface, name, value, None, repr).hardware, other) == LookupFirst(w, iface.hardware, other)
  {
  }

  /** Redelivering the same update leaves the same state as delivering it once. */
  lemma SetIdempotent(iface: Interface, name: string, value: Reading, failure: Option<Fault>, repr: Fault -> string)
    ensures SetHardwareAttribute(SetHardwareAttribute(iface, name, value, failure, repr), name, value, failure, repr)
      == SetHardwareAttribute(iface, name, value, failure, repr)
  {
    if iface.hardware.Some? && failure.None? {
      var attrs := iface.hardware.value.attrs;
      assert attrs[name := value][name := value] == attrs[name := value];
    }
  }

  /** `set_random_base_callback(message)`. */
  function SetRandomBaseCallback(iface: Interface, message: Message, failure: Option<Fault>, repr: Fault -> string): (r: Interface)
    ensures iface.hardware.Some? && failure.None? ==> r.hardware == Some(Hardware(iface.hardware.value.attrs["random_base" := message.data]))
    ensures iface.hardware.None? ==> r == iface
    ensures r.data == iface.data && r.hardwareConfig == iface.hardwareConfig
    ensures failure.None? ==> r.error == iface.error
    ensures iface.hardware.Some? && failure.Some? ==> r.hardware == iface.hardware && r.error == repr(failure.value)
  {
    SetHardwareAttribute(iface, "random_base", message.data, failure, repr)
  }

  /** `set_random_range_callback(message)`. */
  function SetRandomRangeCallback(iface: Interface, message: Message, failure: Option<Fault>, repr: Fault -> string): (r: Interface)
    ensures iface.hardware.Some? && failure.None? ==> r.hardware == Some(Hardware(iface.hardware.value.attrs["random_range" := message.data]))
    ensures iface.hardware.None? ==> r == iface
    ensures r.data == iface.data && r.hardwareConfig == iface.hardwareConfig
    ensures failure.None? ==> r.error == iface.error
    ensures iface.hardware.Some? && failure.Some? ==> r.hardware == iface.hardware && r.error == repr(failure.value)
  {
    SetHardwareAttribute(iface, "random_range", message.data, failure, repr)
  }
}
