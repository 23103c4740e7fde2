/** How `logging_action` in src/smax_daemon/example_hardware_interface.py turns one flattened
    descriptor into a reading: choose an attribute path, look its first segment up on the
    interface and then on the wrapped hardware, walk the remaining segments, and call the
    result if it is a bound method.

    The live Python objects are abstracted into an object graph (`World`) of partial maps. */
module Resolver {
  import opened Wrappers
  import opened ConfigTree
  import Dicts
  import Strings

  /** What an attribute access yields: a plain object (by identity) or a bound method. */
  datatype Reading = Plain(obj: nat) | Method(f: nat)

  /** The wrapped hardware object, as its own `__getattribute__` sees it. */
  datatype Hardware = Hardware(attrs: map<string, Reading>)

  /** The rest of the object graph.
      `own`: the interface's own members (the first lookup tier).
      `hooks`: for each plain object whose class defines `__getattr__`, what that method
      returns per name; ordinary objects do not define it.
      `calls`: what calling bound method `f` with positional arguments returns or raises;
      a call the method does not accept raises `TypeError`. */
  datatype World = World(
    own: map<string, Reading>,
    hooks: map<nat, map<string, Reading>>,
    calls: map<(nat, seq<Value>), Result<Reading, Fault>>)

  /** The interface's `__getattr__`: its own members first, then the hardware's
      (`self._hardware.__getattribute__`, which fails when the hardware is `None`). */
  function LookupFirst(w: World, hardware: Option<Hardware>, name: string): (r: Result<Reading, Fault>)
    ensures r.Err? ==> r.error == AttributeError(name)
    ensures r.Ok? <==> name in w.own || (hardware.Some? && name in hardware.value.attrs)
  {
    if name in w.own then Ok(w.own[name])
    else if hardware.Some? && name in hardware.value.attrs then Ok(hardware.value.attrs[name])
    else Err(AttributeError(name))
  }

  /** The interface's own members shadow the hardware's: the hardware matters only for names
      the interface lacks, and then it alone decides. */
  lemma TwoTierLookup(w: World, hw1: Option<Hardware>, hw2: Option<Hardware>, name: string)
    ensures name in w.own ==> LookupFirst(w, hw1, name) == LookupFirst(w, hw2, name) == Ok(w.own[name])
    ensures name !in w.own && hw1.Some? && hw2.Some? && hw1.value.attrs == hw2.value.attrs
      ==> LookupFirst(w, hw1, name) == LookupFirst(w, hw2, name)
    ensures name !in w.own && hw1.None? ==> LookupFirst(w, hw1, name) == Err(AttributeError(name))
  {
  }

  /** `reading = reading.__getattr__(d)` for each remaining segment `d`. A bound method, or a
      plain object whose class has no `__getattr__`, has no such method to call. */
  function Walk(w: World, start: Reading, segments: seq<string>): Result<Reading, Fault>
    decreases |segments|
  {
    if |segments| == 0 then Ok(start)
    else if start.Method? || start.obj !in w.hooks then Err(AttributeError("__getattr__"))
    else if segments[0] !in w.hooks[start.obj] then Err(AttributeError(segments[0]))
    else Walk(w, w.hooks[start.obj][segments[0]], segments[1..])
  }

  /** Walking a path is walking its first part, then the rest from where that ended. */
  lemma {:induction false} WalkAppend(w: World, start: Reading, a: seq<string>, b: seq<string>)
    ensures Walk(w, start, a + b)
      == (match Walk(w, start, a) case Ok(mid) => Walk(w, mid, b) case Err(e) => Err(e))
    decreases |a|
  {
    if |a| > 0 {
      assert (a + b)[0] == a[0];
      assert (a + b)[1..] == a[1..] + b;
      if start.Plain? && start.obj in w.hooks && a[0] in w.hooks[start.obj] {
        WalkAppend(w, w.hooks[start.obj][a[0]], a[1..], b);
      }
    } else {
      assert a + b == b;
    }
  }

  /** When a path resolves up to its last segment and that segment is missing on an object that
      defines `__getattr__`, the failure names that segment and not an earlier one. */
  lemma MissingLastSegment(w: World, start: Reading, prefix: seq<string>, last: string, obj: nat)
    requires Walk(w, start, prefix) == Ok(Plain(obj))
    requires obj in w.hooks && last !in w.hooks[obj]
    ensures Walk(w, start, prefix + [last]) == Err(AttributeError(last))
  {
    WalkAppend(w, start, prefix, [last]);
  }

  /** `data.replace(":", ".")`: the attribute path spelled by a flattened key. */
  function KeyPath(key: string): string {
    Strings.Replace(key, ':', '.')
  }

  /** `attribute.split(".")` needs a string. */
  function AsPath(v: Value): Result<string, Fault> {
    if v.Leaf? && v.scalar.Str? then Ok(v.scalar.s) else Err(AttributeError("split"))
  }

  /** The `if`/`elif` chain choosing the attribute path for one descriptor.
      `"attribute" in d` is key membership on a dict, substring search on a string, element
      membership on a list, and a `TypeError` on a number or boolean; subscripting a string or a
      list with `"attribute"` is a `TypeError` too. */
  function AttributePath(key: string, desc: Value): (r: Result<string, Fault>)
    ensures desc == Leaf(Null) ==> r == Ok(KeyPath(key))
    ensures desc.Map? && Dicts.HasKey(desc.entries, "attribute")
      ==> r == AsPath(Dicts.Get(desc.entries, "attribute").value)
    ensures desc.Map? && !Dicts.HasKey(desc.entries, "attribute") && Dicts.HasKey(desc.entries, "function")
      ==> r == AsPath(Dicts.Get(desc.entries, "function").value)
    ensures desc.Leaf? && r.Ok? ==> r.value == KeyPath(key)
    ensures desc.Leaf? && desc.scalar.Str?
      ==> r == (if Strings.Contains(desc.scalar.s, "attribute") || Strings.Contains(desc.scalar.s, "function")
                then Err(TypeError("string indices must be integers")) else Ok(KeyPath(key)))
    ensures desc.Leaf? && desc.scalar.List?
      ==> (r.Ok? <==> Leaf(Str("attribute")) !in desc.scalar.items && Leaf(Str("function")) !in desc.scalar.items)
    ensures desc.Leaf? && (desc.scalar.Num? || desc.scalar.Bool?) ==> r.Err? && r.error.TypeError?
    ensures desc.Leaf? && r.Err? ==> r.error.TypeError?
    ensures desc.Map? && !Dicts.HasKey(desc.entries, "attribute") && !Dicts.HasKey(desc.entries, "function")
      ==> r == Ok(KeyPath(key))
  {
    match desc
    case Map(entries) =>
      if Dicts.HasKey(entries, "attribute") then AsPath(Dicts.Get(entries, "attribute").value)
      else if Dicts.HasKey(entries, "function") then AsPath(Dicts.Get(entries, "function").value)
      else Ok(KeyPath(key))
    case Leaf(Null) => Ok(KeyPath(key))
    case Leaf(Str(s)) =>
      if Strings.Contains(s, "attribute") || Strings.Contains(s, "function") then Err(TypeError("string indices must be integers"))
      else Ok(KeyPath(key))
    case Leaf(List(items)) =>
      if Leaf(Str("attribute")) in items || Leaf(Str("function")) in items then Err(TypeError("list indices must be integers"))
      else Ok(KeyPath(key))
    case Leaf(Num(_)) => Err(TypeError("argument of type 'int' is not iterable"))
    case Leaf(Bool(_)) => Err(TypeError("argument of type 'bool' is not iterable"))
  }

  /** A plain string descriptor such as `"status": "connected"` reads the key's own path; one that
      mentions a marker, such as `"attribute only"`, is subscripted with a string and raises. */
  lemma StringDescriptors()
    ensures AttributePath("status", Leaf(Str("connected"))) == Ok("status")
    ensures AttributePath("status", Leaf(Str("attribute only"))).Err?
  {
    assert !Strings.Contains("connected", "attribute");
    assert "onnected"[..8][0] != "function"[0];
    assert !Strings.Contains("onnected", "function");
    assert !Strings.Contains("connected", "function");
    assert Strings.Contains("attribute only", "attribute");
    assert KeyPath("status") == "status";
  }

  /** For a scalar leaf the path never depends on the scalar: two leaf descriptors under the same
      key that both resolve a path resolve the same one, the key's own path. */
  lemma LeafPathFromKey(key: string, d1: Value, d2: Value)
    requires d1.Leaf? && d2.Leaf?
    requires AttributePath(key, d1).Ok? && AttributePath(key, d2).Ok?
    ensures AttributePath(key, d1) == AttributePath(key, d2) == Ok(KeyPath(key))
  {
  }

  /** The positional arguments: `args` if configured, a non-list `args` wrapped in a list,
      none otherwise. */
  function CallArguments(entries: seq<(string, Value)>): (args: seq<Value>)
    ensures !Dicts.HasKey(entries, "args") ==> args == []
    ensures Dicts.HasKey(entries, "args") && Dicts.Get(entries, "args").value.Leaf? && Dicts.Get(entries, "args").value.scalar.List?
      ==> args == Dicts.Get(entries, "args").value.scalar.items
    ensures Dicts.HasKey(entries, "args") && !(Dicts.Get(entries, "args").value.Leaf? && Dicts.Get(entries, "args").value.scalar.List?)
      ==> args == [Dicts.Get(entries, "args").value]
  {
    var args := Dicts.Get(entries, "args");
    if args.None? then []
    else if args.value.Leaf? && args.value.scalar.List? then args.value.scalar.items
    else [args.value]
  }

  /** `reading(*args)`. */
  function Invoke(w: World, f: nat, args: seq<Value>): Result<Reading, Fault> {
    if (f, args) in w.calls then w.calls[(f, args)] else Err(TypeError("arguments not accepted"))
  }

  /** Resolve one descriptor of `_hardware_data` against the connected hardware. */
  function Resolve(w: World, hw: Hardware, key: string, desc: Value): Result<Reading, Fault> {
    var path :- AttributePath(key, desc);
    var segments := Strings.Split(path, '.');
    var first :- LookupFirst(w, Some(hw), segments[0]);
    var reading :- Walk(w, first, segments[1..]);
    if reading.Plain? then Ok(reading)
    else if !desc.Map? then Err(AttributeError("keys"))
    else Invoke(w, reading.f, CallArguments(desc.entries))
  }

  /** A path that reaches a plain object returns it as it is; one that reaches a bound method calls
      it with exactly the configured arguments, and a descriptor that is not a dict cannot supply
      them (`.keys()` fails). */
  lemma ResolveOutcome(w: World, hw: Hardware, key: string, desc: Value, path: string, reached: Reading)
    requires AttributePath(key, desc) == Ok(path)
    requires LookupFirst(w, Some(hw), Strings.Split(path, '.')[0]).Ok?
    requires Walk(w, LookupFirst(w, Some(hw), Strings.Split(path, '.')[0]).value, Strings.Split(path, '.')[1..]) == Ok(reached)
    ensures reached.Plain? ==> Resolve(w, hw, key, desc) == Ok(reached)
    ensures reached.Method? && desc.Map? ==> Resolve(w, hw, key, desc) == Invoke(w, reached.f, CallArguments(desc.entries))
    ensures reached.Method? && !desc.Map? ==> Resolve(w, hw, key, desc) == Err(AttributeError("keys"))
  {
  }

  /** Where a read fails, its error is that of the step that failed: an unusable descriptor, a
      first segment neither tier has, or the walk's own failure, such as the missing segment of
      `a.b.c` being named by `c`. */
  lemma ResolveErrors(w: World, hw: Hardware, key: string, desc: Value)
    ensures AttributePath(key, desc).Err? ==> Resolve(w, hw, key, desc) == Err(AttributePath(key, desc).error)
    ensures AttributePath(key, desc).Ok? ==> (
      var segments := Strings.Split(AttributePath(key, desc).value, '.');
      var first := LookupFirst(w, Some(hw), segments[0]);
      (first.Err? ==> Resolve(w, hw, key, desc) == Err(AttributeError(segments[0])))
      && (first.Ok? && Walk(w, first.value, segments[1..]).Err?
          ==> Resolve(w, hw, key, desc) == Err(Walk(w, first.value, segments[1..]).error)))
  {
  }

  /** A path with no `.` is looked up directly; with dots, every segment after the first is walked. */
  lemma PathSegments(path: string)
    ensures '.' !in path ==> Strings.Split(path, '.') == [path]
    ensures Strings.Join(Strings.Split(path, '.'), '.') == path
  {
    Strings.SplitSingle(path, '.');
    Strings.JoinSplit(path, '.');
  }

  /** The readings for all descriptors, in order, or the first failure: the loop stops at the
      first exception. */
  function ResolveAll(w: World, hw: Hardware, data: Dicts.Dict<Value>): (r: Result<seq<(string, Reading)>, Fault>)
    ensures r.Ok? ==> |r.value| == |data|
    ensures r.Ok? ==> forall i :: 0 <= i < |data| ==>
      r.value[i].0 == data[i].0 && Resolve(w, hw, data[i].0, data[i].1) == Ok(r.value[i].1)
    ensures r.Ok? <==> forall i :: 0 <= i < |data| ==> Resolve(w, hw, data[i].0, data[i].1).Ok?
  {
    if |data| == 0 then Ok([])
    else
      var first :- Resolve(w, hw, data[0].0, data[0].1);
      var rest :- ResolveAll(w, hw, data[1..]);
      Ok([(data[0].0, first)] + rest)
  }

  /** A failed pass reports the failure of the first descriptor that fails; all before it resolved. */
  lemma {:induction false} ResolveAllFirstFailure(w: World, hw: Hardware, data: Dicts.Dict<Value>)
    requires ResolveAll(w, hw, data).Err?
    ensures exists i :: (0 <= i < |data|
      && Resolve(w, hw, data[i].0, data[i].1) == Err(ResolveAll(w, hw, data).error)
      && forall j :: 0 <= j < i ==> Resolve(w, hw, data[j].0, data[j].1).Ok?)
  {
    if Resolve(w, hw, data[0].0, data[0].1).Err? {
      assert Resolve(w, hw, data[0].0, data[0].1) == Err(ResolveAll(w, hw, data).error);
    } else {
      ResolveAllFirstFailure(w, hw, data[1..]);
      var i :| 0 <= i < |data[1..]|
        && Resolve(w, hw, data[1..][i].0, data[1..][i].1) == Err(ResolveAll(w, hw, data[1..]).error)
        && forall j :: 0 <= j < i ==> Resolve(w, hw, data[1..][j].0, data[1..][j].1).Ok?;
      assert forall j :: 1 <= j < i + 1 ==> data[j] == data[1..][j - 1];
    }
  }
}
