/** `ExampleSmaxService` of src/smax_daemon/example_smax_daemon.py: connecting to SMA-X with
    retries and resubscription, one logging round, and the stop procedure.

    The SMA-X client is external. Each call the model makes to it is an `Effect`, and each call
    that can fail consumes one entry of a script of outcomes (`None` for success, `Some(e)` for
    the exception it raised). A run that needs more outcomes than the script holds stops with
    `OutOfScript`: the service itself would go on waiting. */
module Daemon {
  import opened Wrappers
  import opened ConfigTree
  import opened Resolver
  import Dicts
  import SmaxConfig
  import SmaxKeys
  import HardwareInterface

  /** A request the service makes of the outside world. */
  datatype Effect =
    | CreateClient
    | ConnectTo
    | Subscribe(channel: string, callback: Reading)
    | Sleep(ms: nat)
    | Share(table: string, key: string, value: HardwareInterface.Logged)
    | NotifyStopping
    | DisconnectHardware
    | Unsubscribe
    | DisconnectClient
    | Exit(code: int)

  /** The service's state: its settings, whether `smax_client` is set, and the hardware interface
      (`None` until `start` creates it). */
  datatype Service = Service(
    settings: SmaxConfig.Settings,
    client: bool,
    iface: Option<HardwareInterface.Interface>)

  /** What the hardware side does, fixed for a run: the object graph, the outcome of creating the
      hardware object, and Python's `repr` of an exception. */
  datatype Context = Context(w: World, hardwareOutcome: Result<Hardware, Fault>, repr: Fault -> string)

  datatype Status = Completed | Threw(fault: Fault) | OutOfScript

  /** The state reached, the effects requested in order, the unused outcomes, and how it ended. */
  datatype Run = Run(svc: Service, effects: seq<Effect>, rest: seq<Option<Fault>>, status: Status)

  /** `_is_smaxconnectionerror`: the only exception the retry decorator retries on. */
  predicate IsSmaxConnectionError(e: Fault) {
    e.ConnectionError?
  }

  function Pow2(n: nat): (r: nat)
    ensures r >= 1
  {
    if n == 0 then 1 else 2 * Pow2(n - 1)
  }

  /** The wait in milliseconds after failed attempt `n` (counted from 1): exponential with
      multiplier 1000, capped at 30000. */
  function RetryWait(n: nat): nat {
    var w := 1000 * Pow2(n);
    if w > 30000 then 30000 else w
  }

  /** The waits stay between the multiplier and the cap, never shrink, are at least twice the
      multiplier from the first attempt on, and reach the cap from the fifth failed attempt on. */
  lemma {:induction false} RetryWaitBounds(n: nat, m: nat)
    requires n <= m
    ensures 1000 <= RetryWait(n) <= 30000
    ensures RetryWait(n) <= RetryWait(m)
    ensures 1 <= n ==> 2000 <= RetryWait(n)
    ensures n >= 5 ==> RetryWait(n) == 30000
  {
    Pow2Monotone(n, m);
    if n >= 1 {
      Pow2Monotone(1, n);
    }
    if n >= 5 {
      Pow2Monotone(5, n);
    }
  }

  lemma {:induction false} Pow2Monotone(n: nat, m: nat)
    requires n <= m
    ensures Pow2(n) <= Pow2(m)
    decreases m
  {
    if n < m {
      Pow2Monotone(n, m - 1);
    }
  }

  /** `join(smax_table, smax_key, k)`. */
  function Channel(table: string, key: string, control: string): string {
    table + ":" + key + ":" + control
  }

  /** `getattr(self.hardware, name)`: the interface's own members, then the hardware's. A name
      that is not a string is a `TypeError`, and a service without an interface has no
      attribute at all. */
  function Callback(w: World, iface: Option<HardwareInterface.Interface>, name: Value): (r: Result<Reading, Fault>)
    ensures !(name.Leaf? && name.scalar.Str?) ==> r.Err? && r.error.TypeError?
    ensures name.Leaf? && name.scalar.Str? && iface.Some? ==> r == LookupFirst(w, iface.value.hardware, name.scalar.s)
    ensures name.Leaf? && name.scalar.Str? && iface.None? ==> r == Err(AttributeError(name.scalar.s))
  {
    if !(name.Leaf? && name.scalar.Str?) then Err(TypeError("attribute name must be string"))
    else if iface.None? then Err(AttributeError(name.scalar.s))
    else LookupFirst(w, iface.value.hardware, name.scalar.s)
  }

  /** The subscription loop of `connect_to_smax`: one subscription per control key, in order, each
      on the key's channel and to the member the key names. The first name that does not resolve
      raises, after the subscriptions of the keys before it have been made. */
  function Subscriptions(w: World, iface: Option<HardwareInterface.Interface>, table: string, key: string, controls: Dicts.Dict<Value>)
    : (r: (seq<Effect>, Option<Fault>))
    ensures |r.0| <= |controls|
    ensures forall i :: 0 <= i < |r.0| ==> (Callback(w, iface, controls[i].1).Ok?
      && r.0[i] == Subscribe(Channel(table, key, controls[i].0), Callback(w, iface, controls[i].1).value))
    ensures r.1.None? <==> forall i :: 0 <= i < |controls| ==> Callback(w, iface, controls[i].1).Ok?
    ensures r.1.None? ==> |r.0| == |controls|
    ensures r.1.Some? ==> |r.0| < |controls| && Callback(w, iface, controls[|r.0|].1) == Err(r.1.value)
  {
    if |controls| == 0 then ([], None)
    else
      var first := Callback(w, iface, controls[0].1);
      if first.Err? then ([], Some(first.error))
      else
        var more := Subscriptions(w, iface, table, key, controls[1..]);
        var subs := [Subscribe(Channel(table, key, controls[0].0), first.value)] + more.0;
        assert forall i :: 1 <= i < |subs| ==> subs[i] == more.0[i - 1] && controls[1..][i - 1] == controls[i];
        assert more.1.Some? ==> controls[1..][|more.0|] == controls[|subs|];
        (subs, more.1)
  }

  /** The subscriptions a connected service makes, and the error that stopped them, if any. */
  function ServiceSubscriptions(w: World, s: Service): (seq<Effect>, Option<Fault>) {
    Subscriptions(w, s.iface, s.settings.table, s.settings.key, s.settings.controlKeys)
  }

  /** One call of the undecorated `connect_to_smax`: create the client the first time, reconnect
      it afterwards, then subscribe every control key. `outcome` is what the client call gave. */
  function ConnectAttempt(w: World, s: Service, outcome: Option<Fault>): (r: (Service, seq<Effect>, Option<Fault>))
    ensures |r.1| >= 1 && r.1[0] == (if s.client then ConnectTo else CreateClient)
    ensures r.0 == s.(client := s.client || outcome.None?)
    ensures outcome.Some? ==> r.1 == r.1[..1] && r.2 == outcome
    ensures outcome.None? ==> r.1 == r.1[..1] + ServiceSubscriptions(w, s).0 && r.2 == ServiceSubscriptions(w, s).1
  {
    var opening := if s.client then ConnectTo else CreateClient;
    if outcome.Some? then (s, [opening], outcome)
    else
      var subs := ServiceSubscriptions(w, s);
      (s.(client := true), [opening] + subs.0, subs.1)
  }

  /** `connect_to_smax` under `@retry`: a `SmaxConnectionError` is retried after the capped wait,
      forever; any other exception propagates at once. */
  function ConnectToSmax(w: World, s: Service, env: seq<Option<Fault>>, attempt: nat): (r: Run)
    ensures |r.rest| <= |env| && (|env| > 0 ==> |r.rest| < |env|)
    ensures r.status.Threw? ==> !IsSmaxConnectionError(r.status.fault)
    ensures r.status.Completed? ==> r.svc.client
    ensures r.svc.settings == s.settings && r.svc.iface == s.iface && (s.client ==> r.svc.client)
    ensures forall i :: 0 <= i < |r.effects| && r.effects[i].Sleep? ==> r.effects[i].ms <= 30000
    decreases |env|
  {
    if |env| == 0 then Run(s, [], env, OutOfScript)
    else
      var (s1, effects, raised) := ConnectAttempt(w, s, env[0]);
      if raised.None? then Run(s1, effects, env[1..], Completed)
      else if !IsSmaxConnectionError(raised.value) then Run(s1, effects, env[1..], Threw(raised.value))
      else
        var more := ConnectToSmax(w, s1, env[1..], attempt + 1);
        var pre := effects + [Sleep(RetryWait(attempt))];
        assert forall i :: |pre| <= i < |pre| + |more.effects| ==> (pre + more.effects)[i] == more.effects[i - |pre|];
        more.(effects := pre + more.effects)
  }

  /** The sleeps among a run's effects, in order. */
  function Sleeps(effects: seq<Effect>): seq<nat> {
    if |effects| == 0 then []
    else (if effects[0].Sleep? then [effects[0].ms] else []) + Sleeps(effects[1..])
  }

  lemma {:induction false} SleepsAppend(a: seq<Effect>, b: seq<Effect>)
    ensures Sleeps(a + b) == Sleeps(a) + Sleeps(b)
  {
    if |a| > 0 {
      assert (a + b)[0] == a[0];
      assert (a + b)[1..] == a[1..] + b;
      SleepsAppend(a[1..], b);
    } else {
      assert a + b == b;
    }
  }

  /** The waits after failed attempts `attempt`, `attempt + 1`, ..., `j` of them. */
  function Waits(attempt: nat, j: nat): (r: seq<nat>)
    ensures |r| == j
    ensures forall i :: 0 <= i < j ==> r[i] == RetryWait(attempt + i)
    decreases j
  {
    if j == 0 then [] else [RetryWait(attempt)] + Waits(attempt + 1, j - 1)
  }

  lemma {:induction false} NoSleeps(effects: seq<Effect>)
    requires forall i :: 0 <= i < |effects| ==> !effects[i].Sleep?
    ensures Sleeps(effects) == []
  {
    if |effects| > 0 {
      NoSleeps(effects[1..]);
    }
  }

  /** A failed attempt with a connection error: one client call, one wait, then the rest. */
  lemma RetryStep(w: World, s: Service, env: seq<Option<Fault>>, attempt: nat)
    requires |env| > 0 && env[0].Some? && IsSmaxConnectionError(env[0].value)
    ensures var more := ConnectToSmax(w, s, env[1..], attempt + 1);
      ConnectToSmax(w, s, env, attempt)
        == more.(effects := [if s.client then ConnectTo else CreateClient, Sleep(RetryWait(attempt))] + more.effects)
  {
    var opening := if s.client then ConnectTo else CreateClient;
    assert ConnectAttempt(w, s, env[0]) == (s, [opening], env[0]);
    assert [opening] + [Sleep(RetryWait(attempt))] == [opening, Sleep(RetryWait(attempt))];
  }

  /** A successful attempt: one client call, then every subscription. */
  lemma ConnectedStep(w: World, s: Service, env: seq<Option<Fault>>, attempt: nat)
    requires |env| > 0 && env[0].None? && ServiceSubscriptions(w, s).1.None?
    ensures ConnectToSmax(w, s, env, attempt)
      == Run(s.(client := true), [if s.client then ConnectTo else CreateClient] + ServiceSubscriptions(w, s).0, env[1..], Completed)
  {
  }

  /** `j` connection errors followed by a successful connect: the run completes, having used
      exactly `j + 1` outcomes. */
  lemma {:induction false} RetryUntilConnected(w: World, s: Service, env: seq<Option<Fault>>, attempt: nat, j: nat)
    requires j < |env| && env[j].None?
    requires forall i :: 0 <= i < j ==> env[i].Some? && IsSmaxConnectionError(env[i].value)
    requires ServiceSubscriptions(w, s).1.None?
    ensures ConnectToSmax(w, s, env, attempt).status == Completed
    ensures ConnectToSmax(w, s, env, attempt).rest == env[j + 1..]
    decreases j
  {
    if j > 0 {
      RetryStep(w, s, env, attempt);
      assert env[1..][j - 1] == env[j];
      assert env[1..][j..] == env[j + 1..];
      RetryUntilConnected(w, s, env[1..], attempt + 1, j - 1);
    } else {
      ConnectedStep(w, s, env, attempt);
    }
  }

  /** The same run waits exactly `j` times: `RetryWait(attempt)`, `RetryWait(attempt + 1)`, .... */
  lemma {:induction false} RetryWaits(w: World, s: Service, env: seq<Option<Fault>>, attempt: nat, j: nat)
    requires j < |env| && env[j].None?
    requires forall i :: 0 <= i < j ==> env[i].Some? && IsSmaxConnectionError(env[i].value)
    requires ServiceSubscriptions(w, s).1.None?
    ensures Sleeps(ConnectToSmax(w, s, env, attempt).effects) == Waits(attempt, j)
    decreases j
  {
    var opening := if s.client then ConnectTo else CreateClient;
    if j > 0 {
      RetryStep(w, s, env, attempt);
      assert env[1..][j - 1] == env[j];
      RetryWaits(w, s, env[1..], attempt + 1, j - 1);
      WaitThenLater(opening, attempt, j, ConnectToSmax(w, s, env[1..], attempt + 1).effects);
    } else {
      var subs := ServiceSubscriptions(w, s).0;
      ConnectedStep(w, s, env, attempt);
      SleepsAppend([opening], subs);
      assert Sleeps([opening]) == [];
      NoSleeps(subs);
    }
  }

  /** The same run ends with a full set of subscriptions. */
  lemma {:induction false} RetryEndsSubscribed(w: World, s: Service, env: seq<Option<Fault>>, attempt: nat, j: nat)
    requires j < |env| && env[j].None?
    requires forall i :: 0 <= i < j ==> env[i].Some? && IsSmaxConnectionError(env[i].value)
    requires ServiceSubscriptions(w, s).1.None?
    ensures var e := ConnectToSmax(w, s, env, attempt).effects;
      |e| > |ServiceSubscriptions(w, s).0| && e[|e| - |ServiceSubscriptions(w, s).0|..] == ServiceSubscriptions(w, s).0
    decreases j
  {
    var subs := ServiceSubscriptions(w, s).0;
    if j > 0 {
      RetryStep(w, s, env, attempt);
      assert env[1..][j - 1] == env[j];
      RetryEndsSubscribed(w, s, env[1..], attempt + 1, j - 1);
      var later := ConnectToSmax(w, s, env[1..], attempt + 1).effects;
      SuffixKept([if s.client then ConnectTo else CreateClient, Sleep(RetryWait(attempt))], later, subs);
    } else {
      ConnectedStep(w, s, env, attempt);
    }
  }

  lemma SuffixKept<T>(front: seq<T>, later: seq<T>, tail: seq<T>)
    requires |later| > |tail| && later[|later| - |tail|..] == tail
    ensures var e := front + later; |e| > |tail| && e[|e| - |tail|..] == tail
  {
    var e := front + later;
    assert e[|e| - |tail|..] == later[|later| - |tail|..];
  }

  /** Putting one attempt and its wait in front of the later attempts' effects. */
  lemma WaitThenLater(opening: Effect, attempt: nat, j: nat, later: seq<Effect>)
    requires !opening.Sleep? && j > 0
    requires Sleeps(later) == Waits(attempt + 1, j - 1)
    ensures Sleeps([opening, Sleep(RetryWait(attempt))] + later) == Waits(attempt, j)
  {
    SleepsAppend([opening, Sleep(RetryWait(attempt))], later);
    assert [opening, Sleep(RetryWait(attempt))][1..] == [Sleep(RetryWait(attempt))];
    assert Sleeps([opening, Sleep(RetryWait(attempt))]) == [RetryWait(attempt)];
  }

  /** An exception other than `SmaxConnectionError` ends `connect_to_smax` after one attempt,
      without waiting. */
  lemma OtherErrorPropagates(w: World, s: Service, env: seq<Option<Fault>>, attempt: nat, e: Fault)
    requires |env| > 0 && env[0] == Some(e) && !IsSmaxConnectionError(e)
    ensures ConnectToSmax(w, s, env, attempt) == Run(s, [if s.client then ConnectTo else CreateClient], env[1..], Threw(e))
  {
  }

  /** A control key whose member does not resolve ends `connect_to_smax` after the subscriptions
      of the keys before it. The `AttributeError` is not retried, and the client stays created. */
  lemma SubscribeFailureStops(w: World, s: Service, env: seq<Option<Fault>>, attempt: nat)
    requires |env| > 0 && env[0].None? && ServiceSubscriptions(w, s).1.Some?
    ensures ConnectToSmax(w, s, env, attempt)
      == Run(s.(client := true), [if s.client then ConnectTo else CreateClient] + ServiceSubscriptions(w, s).0,
             env[1..], Threw(ServiceSubscriptions(w, s).1.value))
    ensures !IsSmaxConnectionError(ServiceSubscriptions(w, s).1.value)
  {
    var subs := ServiceSubscriptions(w, s);
    var controls := s.settings.controlKeys;
    assert Callback(w, s.iface, controls[|subs.0|].1) == Err(subs.1.value);
  }

  /** The shares of one logging round: each logged key goes to its table and field. */
  function SharePlan(table: string, key: string, record: Dicts.Dict<HardwareInterface.Logged>): (r: seq<Effect>)
    ensures |r| == |record|
    ensures forall i :: 0 <= i < |record| ==> r[i].Share? && r[i].value == record[i].1 && ':' !in r[i].key
    ensures forall i :: 0 <= i < |record| ==> r[i].table + ":" + r[i].key == table + ":" + key + ":" + record[i].0
  {
    seq(|record|, i requires 0 <= i < |record| => ShareOf(table, key, record[i]))
  }

  /** `smax_share(f"{smax_table}:{atab}", skey, value)` for one logged entry. */
  function ShareOf(table: string, key: string, entry: (string, HardwareInterface.Logged)): (r: Effect)
    ensures r.Share? && r.value == entry.1 && ':' !in r.key
    ensures r.table + ":" + r.key == table + ":" + key + ":" + entry.0
  {
    var tk := SmaxKeys.TableAndKey(key, entry.0);
    assert (table + ":" + tk.0) + ":" + tk.1 == table + ":" + (tk.0 + ":" + tk.1);
    Share(table + ":" + tk.0, tk.1, entry.1)
  }

  /** The share loop: each share consumes one outcome; the first failure stops the loop and is
      raised. */
  function ShareAll(s: Service, plan: seq<Effect>, env: seq<Option<Fault>>): (r: Run)
    ensures r.svc == s && |r.rest| <= |env|
    ensures r.status.Completed? <==> |plan| <= |env| && forall i :: 0 <= i < |plan| ==> env[i].None?
    ensures r.status.Completed? ==> r.effects == plan && r.rest == env[|plan|..]
    ensures r.status.OutOfScript? ==> |env| < |plan| && forall i :: 0 <= i < |env| ==> env[i].None?
    ensures r.status.Threw? ==> (1 <= |r.effects| <= |plan| && |r.effects| <= |env| && r.effects == plan[..|r.effects|]
      && env[|r.effects| - 1] == Some(r.status.fault) && r.rest == env[|r.effects|..]
      && forall j :: 0 <= j < |r.effects| - 1 ==> env[j].None?)
  {
    if |plan| == 0 then Run(s, [], env, Completed)
    else if |env| == 0 then Run(s, [], env, OutOfScript)
    else if env[0].Some? then Run(s, [plan[0]], env[1..], Threw(env[0].value))
    else
      var more := ShareAll(s, plan[1..], env[1..]);
      if more.status.OutOfScript? then more.(effects := [plan[0]] + more.effects)
      else
        ShiftByOne(plan, env, |more.effects|);
        more.(effects := [plan[0]] + more.effects)
  }

  /** Index facts for consuming the first planned share and the first outcome. */
  lemma ShiftByOne<T, U>(plan: seq<T>, env: seq<U>, n: nat)
    requires 0 < |plan| && 0 < |env| && n < |plan| && n < |env|
    ensures [plan[0]] + plan[1..][..n] == plan[..n + 1]
    ensures env[1..][n..] == env[n + 1..]
    ensures forall j :: 0 <= j < |env| - 1 ==> env[1..][j] == env[j + 1]
  {
  }

  /** `smax_logging_action`: connect first if there is no client, read the hardware, share every
      logged key. A `SmaxConnectionError` while sharing reconnects and runs the whole round again;
      any other exception propagates to the logging loop. */
  function LoggingRound(ctx: Context, s: Service, env: seq<Option<Fault>>): (r: Run)
    ensures |r.rest| <= |env|
    ensures r.status.Threw? ==> !IsSmaxConnectionError(r.status.fault)
    ensures r.status.Completed? ==> r.svc.client
    ensures r.svc.settings == s.settings
    ensures !s.client ==> ConnectToSmax(ctx.w, s, env, 1).effects <= r.effects
    decreases |env|, 1
  {
    var pre := if s.client then Run(s, [], env, Completed) else ConnectToSmax(ctx.w, s, env, 1);
    if !pre.status.Completed? then pre
    else if pre.svc.iface.None? then pre.(status := Threw(AttributeError("logging_action")))
    else
      var r := ReadAndShare(ctx, pre.svc, pre.rest);
      r.(effects := pre.effects + r.effects)
  }

  /** The part of a round after the connection check: read the hardware, share the record, and on
      a connection error reconnect and start the round over. */
  function ReadAndShare(ctx: Context, s: Service, env: seq<Option<Fault>>): (r: Run)
    requires s.client && s.iface.Some?
    ensures |r.rest| <= |env|
    ensures r.status.Threw? ==> !IsSmaxConnectionError(r.status.fault)
    ensures r.status.Completed? ==> r.svc.client
    ensures r.svc.settings == s.settings
    decreases |env|, 0
  {
    var s1 := s.(iface := Some(RoundRead(ctx, s).0));
    var sh := ShareAll(s1, SharePlan(s.settings.table, s.settings.key, RoundRead(ctx, s).1), env);
    if sh.status.Threw? && IsSmaxConnectionError(sh.status.fault) then
      var c := ConnectToSmax(ctx.w, s1, sh.rest, 1);
      if !c.status.Completed? then c.(effects := sh.effects + c.effects)
      else
        var again := LoggingRound(ctx, c.svc, c.rest);
        again.(effects := sh.effects + c.effects + again.effects)
    else sh
  }

  /** The interface state and record of the hardware read in a round of a connected service. */
  function RoundRead(ctx: Context, s: Service): (HardwareInterface.Interface, Dicts.Dict<HardwareInterface.Logged>)
    requires s.iface.Some?
  {
    HardwareInterface.LoggingAction(s.iface.value, ctx.w, ctx.hardwareOutcome, ctx.repr)
  }

  /** Without a client a round first connects, and so subscribes every control key, before it
      reads the hardware. */
  lemma RoundConnectsFirst(ctx: Context, s: Service, env: seq<Option<Fault>>)
    requires !s.client && |env| > 0 && env[0].None?
    requires ServiceSubscriptions(ctx.w, s).1.None?
    ensures [CreateClient] + ServiceSubscriptions(ctx.w, s).0 <= LoggingRound(ctx, s, env).effects
  {
    ConnectedStep(ctx.w, s, env, 1);
  }

  /** With a client and every share succeeding, a round shares each logged key exactly once, in
      order, and nothing else. */
  lemma RoundShares(ctx: Context, s: Service, env: seq<Option<Fault>>)
    requires s.client && s.iface.Some?
    requires |env| >= |RoundRead(ctx, s).1|
    requires forall i :: 0 <= i < |env| ==> env[i].None?
    ensures LoggingRound(ctx, s, env).status == Completed
    ensures LoggingRound(ctx, s, env).effects == SharePlan(s.settings.table, s.settings.key, RoundRead(ctx, s).1)
    ensures LoggingRound(ctx, s, env).svc == s.(iface := Some(RoundRead(ctx, s).0))
  {
    var plan := SharePlan(s.settings.table, s.settings.key, RoundRead(ctx, s).1);
    assert forall i :: 0 <= i < |plan| ==> env[i].None?;
  }

  /** A connection error on share `i` reconnects, resubscribing every control key to the
      interface as the round left it, and then runs the whole round again, after the shares
      already made. */
  lemma ShareErrorReconnects(ctx: Context, s: Service, env: seq<Option<Fault>>, i: nat, d: string)
    requires s.client && s.iface.Some?
    requires i < |RoundRead(ctx, s).1| && i + 1 < |env|
    requires forall j :: 0 <= j < i ==> env[j].None?
    requires env[i] == Some(ConnectionError(d)) && env[i + 1].None?
    requires ServiceSubscriptions(ctx.w, s.(iface := Some(RoundRead(ctx, s).0))).1.None?
    ensures var s1 := s.(iface := Some(RoundRead(ctx, s).0));
      var plan := SharePlan(s.settings.table, s.settings.key, RoundRead(ctx, s).1);
      var again := LoggingRound(ctx, s1, env[i + 2..]);
      LoggingRound(ctx, s, env)
        == again.(effects := plan[..i + 1] + [ConnectTo] + ServiceSubscriptions(ctx.w, s1).0 + again.effects)
  {
    var s1 := s.(iface := Some(RoundRead(ctx, s).0));
    var plan := SharePlan(s.settings.table, s.settings.key, RoundRead(ctx, s).1);
    var subs := ServiceSubscriptions(ctx.w, s1).0;
    RoundUnfold(ctx, s, env);
    ShareFailsAt(s1, plan, env, i);
    var sh := ShareAll(s1, plan, env);
    assert sh == Run(s1, plan[..i + 1], env[i + 1..], Threw(ConnectionError(d)));
    assert env[i + 1..][1..] == env[i + 2..];
    ConnectedStep(ctx.w, s1, env[i + 1..], 1);
    var c := ConnectToSmax(ctx.w, s1, sh.rest, 1);
    assert c == Run(s1, [ConnectTo] + subs, env[i + 2..], Completed);
    var again := LoggingRound(ctx, s1, env[i + 2..]);
    assert LoggingRound(ctx, s, env) == again.(effects := sh.effects + c.effects + again.effects);
    Dicts.Associative(plan[..i + 1], [ConnectTo], subs);
  }

  /** Without a client, a round whose connection succeeds goes on exactly as a round of the
      connected service, after the connection's effects. */
  lemma RoundAfterConnect(ctx: Context, s: Service, env: seq<Option<Fault>>)
    requires !s.client && ConnectToSmax(ctx.w, s, env, 1).status == Completed
    ensures var c := ConnectToSmax(ctx.w, s, env, 1);
      LoggingRound(ctx, s, env) == LoggingRound(ctx, c.svc, c.rest).(effects := c.effects + LoggingRound(ctx, c.svc, c.rest).effects)
  {
    var c := ConnectToSmax(ctx.w, s, env, 1);
    if c.svc.iface.Some? {
      var r := ReadAndShare(ctx, c.svc, c.rest);
      assert [] + r.effects == r.effects;
    } else {
      assert c.effects + [] == c.effects;
    }
  }

  /** A round of a service that has a client and an interface, one step unfolded. */
  lemma RoundUnfold(ctx: Context, s: Service, env: seq<Option<Fault>>)
    requires s.client && s.iface.Some?
    ensures var s1 := s.(iface := Some(RoundRead(ctx, s).0));
      var sh := ShareAll(s1, SharePlan(s.settings.table, s.settings.key, RoundRead(ctx, s).1), env);
      var c := ConnectToSmax(ctx.w, s1, sh.rest, 1);
      LoggingRound(ctx, s, env)
        == if !(sh.status.Threw? && IsSmaxConnectionError(sh.status.fault)) then sh
           else if !c.status.Completed? then c.(effects := sh.effects + c.effects)
           else LoggingRound(ctx, c.svc, c.rest).(effects := sh.effects + c.effects + LoggingRound(ctx, c.svc, c.rest).effects)
  {
    var r := ReadAndShare(ctx, s, env);
    assert [] + r.effects == r.effects;
  }

  /** The share loop stops at the first failed share. */
  lemma ShareFailsAt(s: Service, plan: seq<Effect>, env: seq<Option<Fault>>, i: nat)
    requires i < |plan| && i < |env| && env[i].Some?
    requires forall j :: 0 <= j < i ==> env[j].None?
    ensures ShareAll(s, plan, env) == Run(s, plan[..i + 1], env[i + 1..], Threw(env[i].value))
  {
    var sh := ShareAll(s, plan, env);
    assert sh.status.Threw?;
    assert |sh.effects| - 1 == i;
  }

  /** `stop()`: notify, disconnect the hardware, then, if there is a client, unsubscribe and
      disconnect it, each consuming one outcome, and exit with status 0. Without an interface the
      call to `disconnect_hardware` raises; an exception from the client ends `stop` before the
      exit. `smax_client` is left set either way. */
  function Stop(s: Service, env: seq<Option<Fault>>): (r: Run)
    ensures |r.effects| >= 1 && r.effects[0] == NotifyStopping
    ensures s.iface.None? ==> r.effects == [NotifyStopping] && r.status == Threw(AttributeError("disconnect_hardware"))
    ensures s.iface.Some? ==> |r.effects| >= 2 && r.effects[1] == DisconnectHardware
    ensures s.iface.Some? ==> r.svc.iface.Some? && r.svc.iface.value.hardware.None? && r.svc.iface.value.error == "disconnected"
    ensures r.status.Completed? <==> s.iface.Some? && (!s.client || (|env| >= 2 && env[0].None? && env[1].None?))
    ensures r.status.Completed? <==> r.effects[|r.effects| - 1] == Exit(0)
    ensures Unsubscribe in r.effects <==> s.iface.Some? && s.client && |env| >= 1
    ensures DisconnectClient in r.effects <==> s.iface.Some? && s.client && |env| >= 2 && env[0].None?
    ensures r.status.Threw? && s.iface.Some? ==> (s.client && |env| >= 1
      && if env[0].Some? then r.status.fault == env[0].value else |env| >= 2 && env[1] == Some(r.status.fault))
    ensures r.svc.client == s.client && r.svc.settings == s.settings
  {
    if s.iface.None? then Run(s, [NotifyStopping], env, Threw(AttributeError("disconnect_hardware")))
    else
      var s1 := s.(iface := Some(HardwareInterface.DisconnectHardware(s.iface.value)));
      var opening := [NotifyStopping, DisconnectHardware];
      if !s.client then Run(s1, opening + [Exit(0)], env, Completed)
      else if |env| == 0 then Run(s1, opening, env, OutOfScript)
      else if env[0].Some? then Run(s1, opening + [Unsubscribe], env[1..], Threw(env[0].value))
      else if |env| == 1 then Run(s1, opening + [Unsubscribe], env[1..], OutOfScript)
      else if env[1].Some? then Run(s1, opening + [Unsubscribe, DisconnectClient], env[2..], Threw(env[1].value))
      else Run(s1, opening + [Unsubscribe, DisconnectClient, Exit(0)], env[2..], Completed)
  }

  /** Nothing guards `stop` against a second call: it notifies, disconnects the hardware and, with a
      client, unsubscribes and disconnects it all over again, whatever the first call ended with. */
  lemma StopRepeats(s: Service, env: seq<Option<Fault>>, env2: seq<Option<Fault>>)
    requires s.iface.Some?
    ensures Stop(Stop(s, env).svc, env).effects == Stop(s, env).effects
    ensures s.client && |env2| >= 1 ==> Stop(Stop(s, env).svc, env2).effects[2] == Unsubscribe
  {
  }
}
