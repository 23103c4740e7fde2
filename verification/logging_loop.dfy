/** The timing rule of `logging_loop` in src/smax_daemon/example_smax_daemon.py. Clock readings
    are integers in a fixed unit; the loop runs one logging action per cycle, swallows whatever
    the action raises, and sleeps so that the next cycle starts one interval after this one, or
    one interval after the action finished when the action took the whole interval or longer. */
module LoggingLoop {
  import opened Wrappers

  /** One pass of the loop: how long the logging action ran, what it raised, if anything, and how
      much later than requested the next clock reading at the top of the loop comes (the sleep's
      overshoot plus the loop's own overhead). `raised` is deliberately never read: the loop
      swallows every `Exception`, so the schedule cannot depend on it. */
  datatype Cycle = Cycle(duration: nat, late: nat, raised: Option<Fault>)

  /** The argument of `time.sleep` when the action started at `start` and the clock now reads
      `now` (a monotonic clock, so `start <= now` in the loop); a negative length is the
      `ValueError` that `time.sleep` raises. */
  function SleepLength(start: int, interval: int, now: int): (r: Result<int, Fault>)
    ensures r.Ok? ==> r.value >= 0
    ensures r.Ok? ==> now + r.value == (if now - start < interval then start + interval else now + interval)
    ensures start <= now ==> (r.Ok? <==> interval >= 0)
    ensures start <= now && r.Ok? ==> r.value <= interval
    ensures r.Err? ==> r.error.ValueError?
  {
    var next := start + interval;
    var length := if next > now then next - now else interval;
    if length < 0 then Err(ValueError("sleep length must be non-negative")) else Ok(length)
  }

  /** The time from one cycle's start to the next. */
  function Period(c: Cycle, interval: int): int {
    (if c.duration < interval then interval else c.duration + interval) + c.late
  }

  /** The total lateness of a run of cycles. */
  function Lateness(cycles: seq<Cycle>): nat {
    if |cycles| == 0 then 0 else Lateness(cycles[..|cycles| - 1]) + cycles[|cycles| - 1].late
  }

  /** The start times of the cycles run from `start`: one more than the cycles, since the loop goes
      on after the last one whatever its action raised. Only a sleep error ends the loop, after
      the first cycle. */
  function Starts(start: int, interval: int, cycles: seq<Cycle>): (r: Result<seq<int>, Fault>)
    ensures r.Ok? <==> interval >= 0 || |cycles| == 0
    ensures r.Err? ==> r.error.ValueError?
    ensures r.Ok? ==> |r.value| == |cycles| + 1 && r.value[0] == start
    ensures r.Ok? ==> forall i :: 0 <= i < |cycles| ==> r.value[i + 1] - r.value[i] == Period(cycles[i], interval)
    decreases |cycles|
  {
    if |cycles| == 0 then Ok([start])
    else
      var now := start + cycles[0].duration;
      var sleep :- SleepLength(start, interval, now);
      var rest := Starts(now + sleep + cycles[0].late, interval, cycles[1..]).value;
      var r := [start] + rest;
      assert forall i :: 1 <= i < |cycles| ==> r[i + 1] - r[i] == rest[i] - rest[i - 1] == Period(cycles[1..][i - 1], interval);
      Ok(r)
  }

  /** Actions that finish within the interval give a schedule that drifts only by the lateness of
      the clock readings: cycle `i` starts `i` intervals after the first plus the lateness of the
      cycles before it, and exactly `i` intervals after it when nothing is late. */
  lemma {:induction false} NoDrift(start: int, interval: nat, cycles: seq<Cycle>, i: nat)
    requires forall j :: 0 <= j < |cycles| ==> cycles[j].duration < interval
    requires i <= |cycles|
    ensures Starts(start, interval, cycles).value[i] == start + i * interval + Lateness(cycles[..i])
  {
    if i > 0 {
      NoDrift(start, interval, cycles, i - 1);
      var r := Starts(start, interval, cycles).value;
      assert r[i] == r[i - 1] + Period(cycles[i - 1], interval);
      LatenessStep(cycles, i);
      assert i * interval == (i - 1) * interval + interval;
    }
  }

  /** With actions within the interval and no lateness, cycle `i` starts exactly `i` intervals
      after the first. */
  lemma NoDriftWhenPunctual(start: int, interval: nat, cycles: seq<Cycle>, i: nat)
    requires forall j :: 0 <= j < |cycles| ==> cycles[j].duration < interval && cycles[j].late == 0
    requires i <= |cycles|
    ensures Starts(start, interval, cycles).value[i] == start + i * interval
  {
    NoDrift(start, interval, cycles, i);
    NoLateness(cycles[..i]);
  }

  lemma {:induction false} NoLateness(cycles: seq<Cycle>)
    requires forall j :: 0 <= j < |cycles| ==> cycles[j].late == 0
    ensures Lateness(cycles) == 0
  {
    if |cycles| > 0 {
      NoLateness(cycles[..|cycles| - 1]);
    }
  }

  lemma LatenessStep(cycles: seq<Cycle>, i: nat)
    requires 0 < i <= |cycles|
    ensures Lateness(cycles[..i]) == Lateness(cycles[..i - 1]) + cycles[i - 1].late
  {
    assert cycles[..i][..i - 1] == cycles[..i - 1];
  }

  /** However long the actions run, two cycle starts `i < j` are at least `j - i` intervals apart. */
  lemma {:induction false} MinimumSpacing(start: int, interval: nat, cycles: seq<Cycle>, i: nat, j: nat)
    requires i <= j <= |cycles|
    ensures Starts(start, interval, cycles).value[j] - Starts(start, interval, cycles).value[i] >= (j - i) * interval
  {
    if i < j {
      MinimumSpacing(start, interval, cycles, i, j - 1);
      var r := Starts(start, interval, cycles).value;
      assert r[j] - r[j - 1] == Period(cycles[j - 1], interval) >= interval;
      assert (j - i) * interval == (j - 1 - i) * interval + interval;
    }
  }
}
