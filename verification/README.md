# Example SMA-X daemon, modelled in Dafny

A functional model of the core of the Smithsonian example Python daemon. The model covers two
files:

- `src/smax_daemon/example_hardware_interface.py`. This is the daemon's hardware interface. It
  flattens the nested `logged_data` configuration into `:`-joined keys. It reads every flattened
  entry once per logging cycle through a two-tier attribute lookup. It applies SMA-X control
  callbacks to the wrapped hardware.
- `src/smax_daemon/example_smax_daemon.py`. This is the service around the interface. It merges
  the local and site-wide `smax_config`. It connects to SMA-X with a capped exponential retry
  and subscribes every control key. It runs the logging loop on a fixed schedule, shares each
  logged key under its table, and stops in a fixed order.

Modules, one per concern:

| file | module | models |
|---|---|---|
| wrappers.dfy | `Wrappers` | `Option`, `Result`, and the Python exceptions in play (`Fault`) |
| strings.dfy | `Strings` | `str.split`, `str.join`, `str.replace` and `in` for the separators used |
| dicts.dfy | `Dicts` | Python dicts as ordered association lists: `get`, item assignment, `update`, `dict(items)`, `del` |
| config_tree.dfy | `ConfigTree` | JSON configuration values |
| flatten.dfy | `Flatten` | `leaf_keys` and `flatten_logged_data` |
| resolver.dfy | `Resolver` | `__getattr__` and the per-key read of `logging_action` |
| hardware_interface.dfy | `HardwareInterface` | `configure`, `connect_hardware`, `disconnect_hardware`, `logging_action`, the two control callbacks |
| smax_config.dfy | `SmaxConfig` | `read_config`: the config merge and the settings read from it |
| smax_keys.dfy | `SmaxKeys` | the split of a logged key into SMA-X table and field |
| logging_loop.dfy | `LoggingLoop` | the sleep rule of `logging_loop` |
| daemon.dfy | `Daemon` | `connect_to_smax` with `@retry`, `smax_logging_action`, `stop` |

External behaviour becomes input. The hardware object graph is a `World`. Creating the hardware
is an outcome parameter. Python's `repr` of an exception is a function parameter. Creating or
reconnecting the SMA-X client, each share, and the unsubscribe and disconnect in `stop` take
their outcome from a script. Subscribing is taken to succeed. Clock readings are integers.

## Model

| member | source | states |
|---|---|---|
| Flatten.Flatten | src/smax_daemon/example_hardware_interface.py:17-30 | The result is a real dict (no key twice), and every value in it is a non-mapping or a leaf mapping, so no interior node survives flattening. |
| Flatten.LeafEntryEmitted | src/smax_daemon/example_hardware_interface.py:21-25 | A non-mapping value, or a mapping that is empty or carries a leaf marker, is collected once, unchanged, and is not recursed into: that single item is the entry's whole contribution, at any depth. Its key is `parent:key`, or just `key` at the top level, and that key is in the result. |
| Flatten.InteriorEntryFlattened | src/smax_daemon/example_hardware_interface.py:26-27 | A non-empty mapping without a leaf marker contributes exactly the flattening of its children under the extended path. The mapping itself is never a value of the result. |
| Flatten.ItemsSplit | src/smax_daemon/example_hardware_interface.py:20-29 | The collected items are, in order, the contributions of the entries one after another. |
| Flatten.FlattenWithoutCollisions | src/smax_daemon/example_hardware_interface.py:30 | When no two collected paths collide, `dict(items)` keeps every item in collection order. |
| Flatten.FlattenFlat | src/smax_daemon/example_hardware_interface.py:17-30 | Flattening a dict that has no interior node returns it unchanged. |
| Flatten.FlattenIdempotent | src/smax_daemon/example_hardware_interface.py:17-30 | Flattening a flattened dict gives it back. |
| Dicts.FromItems | src/smax_daemon/example_hardware_interface.py:30 | `dict(items)` has unique keys, and each key maps to the last value the items give it. The keys come in the order of their first occurrence among the items, which fixes the order in which `logging_action` reads them. |
| Dicts.Insert | src/smax_daemon/example_hardware_interface.py:152 | Item assignment stores the value under the key and changes no other key. |
| Dicts.UpdateGet | src/smax_daemon/example_smax_daemon.py:92 | After `d.update(e)`, a key of `e` holds its last value in `e`, and any other key holds its value in `d`. |
| Dicts.Delete | src/smax_daemon/example_smax_daemon.py:91 | `del d[k]` removes `k` and changes no other key. |
| Resolver.LookupFirst | src/smax_daemon/example_hardware_interface.py:56-69 | The lookup succeeds exactly when the interface or the hardware has the name. A failure is `AttributeError` of that name. |
| Resolver.TwoTierLookup | src/smax_daemon/example_hardware_interface.py:66-69 | The interface's own member wins whatever the hardware holds. Otherwise the hardware's attribute is read. Without hardware an unknown name fails. |
| Resolver.AttributePath | src/smax_daemon/example_hardware_interface.py:127-134 | A `None` descriptor uses the key with `:` turned into `.`. For a dict, `attribute` takes precedence over `function`, and with neither the key path is used. A string succeeds with the key path exactly when it contains neither marker, and otherwise is subscripted with a string and raises `TypeError`. A list succeeds exactly when neither marker is an element. A number or boolean raises `TypeError`. |
| Resolver.StringDescriptors | src/smax_daemon/example_hardware_interface.py:129-130 | A descriptor `"connected"` under key `status` reads the path `status`. A descriptor that mentions `attribute` raises. |
| Resolver.LeafPathFromKey | src/smax_daemon/example_hardware_interface.py:127-134 | For scalar descriptors the path depends only on the key, never on the scalar. |
| Resolver.WalkAppend | src/smax_daemon/example_hardware_interface.py:138-140 | Walking `a + b` is walking `a`, then `b` from where it stopped, and the first failure ends the walk. |
| Resolver.MissingLastSegment | src/smax_daemon/example_hardware_interface.py:139-140 | A last segment that the reached object's `__getattr__` does not know raises `AttributeError` of that segment. |
| Resolver.CallArguments | src/smax_daemon/example_hardware_interface.py:143-151 | Without `args` the method gets no arguments. A list `args` supplies its items, and any other value is wrapped as a one-element list. |
| Resolver.ResolveOutcome | src/smax_daemon/example_hardware_interface.py:136-152 | A plain value reached by the walk is returned as it is. A bound method is called with the descriptor's arguments, and fails with `AttributeError('keys')` if the descriptor is not a dict. |
| Resolver.ResolveErrors | src/smax_daemon/example_hardware_interface.py:127-140 | A failing read raises the error of the step that failed. An unusable descriptor raises its own error. A first segment that neither tier has raises `AttributeError` of that segment. A failed walk raises the walk's error, so a missing `c` in `a.b.c` is named `c`. |
| Resolver.PathSegments | src/smax_daemon/example_hardware_interface.py:136-140 | A path without `.` is one segment, and the segments joined with `.` give the path back. |
| Resolver.ResolveAll | src/smax_daemon/example_hardware_interface.py:124-152 | All entries resolve or none are returned. On success, entry `i` holds exactly what resolving key `i` gave. |
| Resolver.ResolveAllFirstFailure | src/smax_daemon/example_hardware_interface.py:124-152 | A failing read fails with the error of the first entry that fails, and every entry before it resolved. |
| HardwareInterface.Configure | src/smax_daemon/example_hardware_interface.py:71-78 | `config["config"]` is kept when present. When `logged_data` is present, the table becomes exactly its flattening. Otherwise the table is unchanged. A non-dict config fails with `AttributeError("keys")`, and a non-dict `logged_data` fails with `AttributeError("items")`. |
| HardwareInterface.ConnectHardware | src/smax_daemon/example_hardware_interface.py:87-101 | Success installs the hardware with error text `"None"`. Failure leaves no hardware and stores `repr` of the exception. |
| HardwareInterface.DisconnectHardware | src/smax_daemon/example_hardware_interface.py:104-106 | The hardware is absent and the error text is `"disconnected"`. Nothing else changes. |
| HardwareInterface.LoggingAction | src/smax_daemon/example_hardware_interface.py:109-165 | `comm_status` is `"good"` exactly when hardware remains. Then `comm_error` is `"None"` and every flattened key is present. Without hardware the record is a two-entry error record. The flattened table never changes. |
| HardwareInterface.GoodRecordKeys | src/smax_daemon/example_hardware_interface.py:152-155 | A good record holds every key read, `comm_status = "good"` and `comm_error = "None"`. |
| HardwareInterface.CycleSuccess | src/smax_daemon/example_hardware_interface.py:116-155 | When hardware is held, or the cycle has just reconnected it, and every logged key resolves, the cycle returns that interface unchanged. The record is the readings, updated with `comm_status: "good"` and `comm_error: "None"`. |
| HardwareInterface.CycleFailure | src/smax_daemon/example_hardware_interface.py:116-160 | A failing read yields exactly `{comm_status: "connection error", comm_error: repr(e)}` for the first failure and drops the hardware. This holds both when the hardware was present and when the cycle has just reconnected. The stored error text stays as it was before the read, which is `"None"` after a reconnect. |
| HardwareInterface.CycleNotConnected | src/smax_daemon/example_hardware_interface.py:116-117 | With no hardware and a failing reconnect, the record is `{comm_status: "connection error", comm_error: "Not Connected"}`. |
| HardwareInterface.CycleReadings | src/smax_daemon/example_hardware_interface.py:124-155 | In a good cycle every flattened key other than the two status keys holds the reading resolved for it. |
| HardwareInterface.DisconnectThenCycle | src/smax_daemon/example_hardware_interface.py:104-117 | After a disconnect the next cycle reconnects first. A failed reconnect reports "Not Connected", and a successful one reads from the new hardware. |
| HardwareInterface.SetHardwareAttribute | src/smax_daemon/example_hardware_interface.py:184-191 | With hardware, a successful assignment sets exactly that attribute. A failing one leaves the hardware and records `repr` of the error. Without hardware nothing changes. |
| HardwareInterface.SetThenRead | src/smax_daemon/example_hardware_interface.py:184-187 | After a successful update the attribute reads back as the message data, and every other name reads as before. |
| HardwareInterface.SetIdempotent | src/smax_daemon/example_hardware_interface.py:176-214 | Delivering the same control message twice leaves the same state as delivering it once. |
| HardwareInterface.SetRandomBaseCallback | src/smax_daemon/example_hardware_interface.py:176-194 | With hardware and a successful assignment, `random_base` becomes the message data. A failing assignment leaves the hardware and stores `repr` of the error. The table and hardware config never change. Without hardware nothing changes. |
| HardwareInterface.SetRandomRangeCallback | src/smax_daemon/example_hardware_interface.py:196-214 | With hardware and a successful assignment, `random_range` becomes the message data. A failing assignment leaves the hardware and stores `repr` of the error. The table and hardware config never change. Without hardware nothing changes. |
| SmaxConfig.MergeSmaxConfig | src/smax_daemon/example_smax_daemon.py:82-92 | With no site-wide config the local one is kept. A local table without a site-wide root is a `KeyError('smax_table')`. Only the local-table case can fail. |
| SmaxConfig.MergeJoinsTable | src/smax_daemon/example_smax_daemon.py:88-91 | The merged table is `root + ":" + local_table`. The site-wide table entry is removed first, so it cannot overwrite the join. |
| SmaxConfig.MergeOverrides | src/smax_daemon/example_smax_daemon.py:88-92 | Every site-wide key overrides the local value, and every local-only key survives. Without a local table, the site-wide table is copied in unchanged. |
| SmaxConfig.DeleteUnique | src/smax_daemon/example_smax_daemon.py:91 | Deleting a key keeps the dict's keys unique. |
| SmaxConfig.Require | src/smax_daemon/example_smax_daemon.py:95-99 | A subscript succeeds exactly when the key is present, with its value. Otherwise it raises `KeyError` of the key. |
| SmaxConfig.ReadConfig | src/smax_daemon/example_smax_daemon.py:74-115 | On success the table, key and control keys read are the merged `smax_table`, `smax_key` and `smax_control_keys`. The interval is the top-level `logging_interval`. A missing `smax_config` is a `KeyError`. |
| SmaxKeys.TableAndKey | src/smax_daemon/example_smax_daemon.py:216-226 | The field never contains `:`, and `table + ":" + field == smax_key + ":" + key`. |
| SmaxKeys.TableAndKeySplitsAtLastColon | src/smax_daemon/example_smax_daemon.py:218-225 | Any table and field satisfying that round trip are the ones computed. Both branches of the source therefore split at the last `:`, and a key without `:` keeps itself as the field under `smax_key`. |
| SmaxKeys.NestedKeySegments | src/smax_daemon/example_smax_daemon.py:218-222 | For `s1:...:sn`, the table splits into `smax_key, s1, ..., s(n-1)`. |
| Strings.JoinSplit | src/smax_daemon/example_smax_daemon.py:220-222 | Joining the parts of a split with the same separator gives back the string. |
| Strings.SplitJoin | src/smax_daemon/example_smax_daemon.py:220-222 | Splitting a join of separator-free parts gives back the parts. |
| Strings.SplitLastUnique | src/smax_daemon/example_smax_daemon.py:220-222 | A string splits at its last separator in one way only. |
| LoggingLoop.SleepLength | src/smax_daemon/example_smax_daemon.py:183-195 | The next start is `start + interval` if the action ended before that deadline, else `now + interval`. With a monotonic clock the sleep is between 0 and `interval`. A negative interval raises `ValueError`. |
| LoggingLoop.Starts | src/smax_daemon/example_smax_daemon.py:179-195 | Each cycle is followed by another whatever its action raised. The start-to-start period is `interval` when the action ended strictly before the deadline, and `duration + interval` otherwise. The clock reading at the top of the next cycle adds that cycle's lateness (oversleep and loop overhead) on top. |
| LoggingLoop.NoDrift | src/smax_daemon/example_smax_daemon.py:183-193 | If every action ends within the interval, cycle `i` starts `i` intervals after the first, plus the lateness of the cycles before it. The deadline is re-read from the clock each cycle, so lateness accumulates. |
| LoggingLoop.NoDriftWhenPunctual | src/smax_daemon/example_smax_daemon.py:183-193 | With no lateness as well, cycle `i` starts exactly `i` intervals after the first. |
| LoggingLoop.MinimumSpacing | src/smax_daemon/example_smax_daemon.py:189-195 | Cycle starts `i < j` are at least `j - i` intervals apart. |
| Daemon.RetryWaitBounds | src/smax_daemon/example_smax_daemon.py:137 | Each wait is at least 1000 ms and at most 30000 ms. From the first attempt, which is where retrying starts counting, each wait is at least 2000 ms. Waits never shrink, and they reach the cap from the fifth failed attempt on. |
| Daemon.Callback | src/smax_daemon/example_smax_daemon.py:156 | `getattr(self.hardware, name)` is the interface's two-tier lookup. A non-string name is a `TypeError`. Without an interface, the name is an `AttributeError`. |
| Daemon.Subscriptions | src/smax_daemon/example_smax_daemon.py:155-157 | Subscription `i` is on `table:key:k` for control key `i` and goes to the member that key names. It stops exactly when some name does not resolve. It then raises the error of the first such key, after subscribing every key before it. |
| Daemon.ConnectAttempt | src/smax_daemon/example_smax_daemon.py:141-158 | The first connect creates the client and later ones reconnect it. A failed client call raises before any subscription. A successful one runs the subscription loop and raises what it raised. |
| Daemon.ConnectToSmax | src/smax_daemon/example_smax_daemon.py:137-158 | A `SmaxConnectionError` never escapes the retry. A completed connect leaves a client, and every wait is at most 30000 ms. |
| Daemon.RetryUntilConnected | src/smax_daemon/example_smax_daemon.py:137-151 | `j` connection errors followed by a successful connect complete after exactly `j + 1` attempts. |
| Daemon.RetryWaits | src/smax_daemon/example_smax_daemon.py:137 | That run waits exactly `j` times, with the capped exponential waits in attempt order. |
| Daemon.RetryEndsSubscribed | src/smax_daemon/example_smax_daemon.py:153-158 | That run ends with the full set of control-key subscriptions. |
| Daemon.OtherErrorPropagates | src/smax_daemon/example_smax_daemon.py:31-32 | Any other exception ends the connect after one client call, with no wait. |
| Daemon.SubscribeFailureStops | src/smax_daemon/example_smax_daemon.py:155-157 | A control key whose member does not resolve ends the connect after the subscriptions of the keys before it. The error is never a `SmaxConnectionError`, so it is not retried, and the client stays set. |
| Daemon.ShareOf | src/smax_daemon/example_smax_daemon.py:216-226 | A logged entry is shared under `smax_table:atab` as field `skey`, with its value. The table and field rejoin to `smax_table:smax_key:key`. |
| Daemon.SharePlan | src/smax_daemon/example_smax_daemon.py:216-226 | There is one share per logged key, in record order, each with that key's value. |
| Daemon.ShareAll | src/smax_daemon/example_smax_daemon.py:215-228 | The loop completes exactly when every share succeeds, having shared the whole plan. Otherwise it stops at the first failing share and raises its exception. |
| Daemon.LoggingRound | src/smax_daemon/example_smax_daemon.py:197-231 | A `SmaxConnectionError` never escapes a round. A completed round leaves a client. Without a client the round starts by connecting. |
| Daemon.RoundConnectsFirst | src/smax_daemon/example_smax_daemon.py:206-208 | Without a client, the round creates one and subscribes every control key before reading the hardware. |
| Daemon.RoundAfterConnect | src/smax_daemon/example_smax_daemon.py:206-227 | Without a client, once the connection succeeds the round continues exactly as a round of the connected service. Its effects follow the connection's effects. |
| Daemon.RoundShares | src/smax_daemon/example_smax_daemon.py:210-227 | With a client and every share succeeding, a round shares each logged key exactly once, in order, and does nothing else. |
| Daemon.ShareErrorReconnects | src/smax_daemon/example_smax_daemon.py:228-231 | A connection error on share `i` reconnects and resubscribes every control key, then runs the whole round again. |
| Daemon.Stop | src/smax_daemon/example_smax_daemon.py:237-257 | Stop notifies first and then disconnects the hardware. Without a client it exits with 0. With one it unsubscribes and then disconnects, and either call that raises ends `stop` before the exit with its exception. It completes exactly when it exits. Without an interface it raises after the notification. |
| Daemon.StopRepeats | src/smax_daemon/example_smax_daemon.py:237-257 | No guard stops a second `stop`, even after the first one raised. It repeats the whole cleanup, unsubscribe included. |

## Left out

- Threads and the hardware lock: every operation is one atomic step. `run` is left out, as it only sleeps until interrupted.
- Logging calls, `systemd` notifications other than the stopping one, signal handlers and `sys.exit` (which appears only as the final `Exit(0)` effect).
- `ExampleHardware`, the `smax` package (`SmaxRedisClient`, `join`, `optional_metadata`) and the `retrying` package are not part of this model. The hardware is an abstract object graph (`World`), the metadata names are a parameter, and client calls are effects with scripted outcomes.
- HardwareInterface.Configure: in the source, a non-dict `logged_data` raises only after `config["config"]` has been stored (lines 74-75). The model's error result drops that partial store and does not report the interface state left behind.
- `__init__` of the interface and `start` of the service are left out: they only chain `Configure`, `ConnectHardware` and `ConnectToSmax`.
- `random_base_minus_one` and `random_range_plus_one` are ordinary interface members, so they live in the `World` rather than being modelled.
- Forwarding `config["config"]` to `ExampleHardware.configure` in `configure` and `connect_hardware` is left out, because it is hardware-side code.
- Floating-point readings, times and intervals are integers.
- Daemon.RetryWait: the wait after failed attempt `n` is taken to be `min(1000 * 2^n, 30000)` ms, the retrying package's exponential rule, which is outside this model. Only the bounds in `RetryWaitBounds` rest on the cap.
- Daemon.Subscriptions: `smax_subscribe` itself is taken to succeed. A failure inside the SMA-X client while subscribing is not modelled, only the failing `getattr` before it.
- Daemon.Channel: the `smax` package's `join(table, key, control)` is taken to join its arguments with `:`. The package is not part of this model.
- HardwareInterface.SetThenRead: assigning a hardware attribute is modelled as a plain store with no side effects. Hardware whose setters write other attributes, such as `ExampleHardware`'s `random_base` and `random_range` properties writing `_random_base` and `_random_range`, changes more names than this frame admits.
- HardwareInterface.SetHardwareAttribute: "sets exactly that attribute" rests on the same plain-store assumption as `SetThenRead`.
- Daemon.ConnectToSmax: the retry never gives up. A run that needs more outcomes than the script holds ends with `OutOfScript` rather than waiting forever.
- SmaxConfig.ReadConfig: a `smax_table` or `smax_key` that is not a string, or a `logging_interval` that is not a number, is rejected here with `TypeError`. The source stores such values as they are. A non-dict `smax_config` is a `TypeError` here, while the source may raise `AttributeError` from `update` instead.
- LoggingLoop.Starts: only exceptions derived from `Exception` are swallowed by the loop. `BaseException`s such as `KeyboardInterrupt` are not modelled.
- The `logging_action` walk uses each reached object's own `__getattr__` (`World.hooks`), as the source does. An object whose class does not define it fails with `AttributeError('__getattr__')`.
