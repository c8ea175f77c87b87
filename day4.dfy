/** Guard sleep records: a time-ordered list of events (a guard begins a
    shift, falls asleep, wakes up) is cut into shifts with sleep
    intervals; then the guard who sleeps most and the minute of the hour
    most slept are picked. Timestamps arrive already reduced to their
    minute of the hour. */
module GuardSleep {
  import opened Wrappers

  /** Asleep from minute `start` up to, not including, minute `stop`. */
  datatype Interval = Interval(start: int, stop: int)

  datatype Shift = Shift(guard: nat, intervals: seq<Interval>)

  // ---------------------------------------------------------------------
  // One shift.

  /** `sleep_time`: the interval lengths added up. */
  function SleepTime(intervals: seq<Interval>): int
  {
    if intervals == [] then 0
    else
      var last := intervals[|intervals| - 1];
      SleepTime(intervals[..|intervals| - 1]) + (last.stop - last.start)
  }

  /** `(s..e - 1).to_a`: the minutes from `s` up to `e - 1`. */
  function Range(s: int, e: int): (r: seq<int>)
    ensures |r| == if s < e then e - s else 0
    ensures forall i :: 0 <= i < |r| ==> r[i] == s + i
    decreases e - s
  {
    if s >= e then [] else [s] + Range(s + 1, e)
  }

  /** `sleep_minutes`: every minute of every interval, in order. */
  function SleepMinutes(intervals: seq<Interval>): seq<int>
  {
    if intervals == [] then []
    else
      var last := intervals[|intervals| - 1];
      SleepMinutes(intervals[..|intervals| - 1]) + Range(last.start, last.stop)
  }

  predicate Ordered(intervals: seq<Interval>)
  {
    forall k :: 0 <= k < |intervals| ==> intervals[k].start <= intervals[k].stop
  }

  /** With no interval running backwards, there are as many sleep minutes
      as the sleep time says. */
  lemma {:induction false} SleepMinutesCount(intervals: seq<Interval>)
    requires Ordered(intervals)
    ensures |SleepMinutes(intervals)| == SleepTime(intervals)
  {
    if intervals != [] {
      SleepMinutesCount(intervals[..|intervals| - 1]);
    }
  }

  /** A minute is a sleep minute exactly when some interval covers it. */
  lemma {:induction false} SleepMinutesCover(intervals: seq<Interval>, m: int)
    ensures m in SleepMinutes(intervals) <==>
      exists k :: 0 <= k < |intervals| && intervals[k].start <= m < intervals[k].stop
  {
    if intervals != [] {
      var n := |intervals| - 1;
      var prior := intervals[..n];
      var last := intervals[n];
      SleepMinutesCover(prior, m);
      InRange(last.start, last.stop, m);
      assert SleepMinutes(intervals) == SleepMinutes(prior) + Range(last.start, last.stop);
      if m in SleepMinutes(intervals) {
        if m in SleepMinutes(prior) {
          var k :| 0 <= k < n && prior[k].start <= m < prior[k].stop;
          assert intervals[k] == prior[k];
        } else {
          assert intervals[n].start <= m < intervals[n].stop;
        }
      } else {
        forall k | 0 <= k < |intervals|
          ensures !(intervals[k].start <= m < intervals[k].stop)
        {
          if k < n {
            assert intervals[k] == prior[k];
          }
        }
      }
    }
  }

  lemma InRange(s: int, e: int, m: int)
    ensures m in Range(s, e) <==> s <= m < e
  {
    if s <= m < e {
      assert Range(s, e)[m - s] == m;
    }
  }

  // ---------------------------------------------------------------------
  // Cutting the events into shifts.

  datatype Event = BeginsShift(guard: nat) | FallsAsleep(minute: int) | WakesUp(minute: int) | Unexpected

  /** The loop variables of `parse_shifts`: the finished shifts, the open
      shift (if any) and the minute of the last `falls asleep`. */
  datatype Progress = Progress(shifts: seq<Shift>, open: Option<Shift>, asleep: Option<int>)

  /** The shifts so far including the open one. */
  function Close(p: Progress): seq<Shift>
  {
    p.shifts + (if p.open.Some? then [p.open.value] else [])
  }

  /** One event: a guard line closes the open shift and opens a new one
      (the last `asleep` minute is kept); `falls asleep` records the
      minute; `wakes up` adds an interval to the open shift, which raises
      when there is none; any other event raises. */
  function Handle(p: Progress, e: Event): Result<Progress>
  {
    match e
    case BeginsShift(g) => Ok(Progress(Close(p), Some(Shift(g, [])), p.asleep))
    case FallsAsleep(m) => Ok(p.(asleep := Some(m)))
    case WakesUp(m) =>
      if p.open.None? || p.asleep.None? then Fail("NoMethodError")
      else Ok(p.(open := Some(p.open.value.(intervals := p.open.value.intervals + [Interval(p.asleep.value, m)]))))
    case Unexpected => Fail("Unexpected event")
  }

  /** The loop state after the events `events`, or the first error. */
  function Replay(events: seq<Event>): Result<Progress>
  {
    if events == [] then Ok(Progress([], None, None))
    else
      match Replay(events[..|events| - 1])
      case Fail(e) => Fail(e)
      case Ok(p) => Handle(p, events[|events| - 1])
  }

  /** The guard ids of the guard lines, in order. */
  function GuardLines(events: seq<Event>): seq<nat>
  {
    if events == [] then []
    else
      var e := events[|events| - 1];
      GuardLines(events[..|events| - 1]) + (if e.BeginsShift? then [e.guard] else [])
  }

  function Guards(shifts: seq<Shift>): (r: seq<nat>)
    ensures |r| == |shifts| && forall i :: 0 <= i < |shifts| ==> r[i] == shifts[i].guard
  {
    if shifts == [] then [] else Guards(shifts[..|shifts| - 1]) + [shifts[|shifts| - 1].guard]
  }

  /** Every guard line opens a shift and every shift ends up in the
      result, in the order of the guard lines. */
  lemma {:induction false} OneShiftPerGuardLine(events: seq<Event>)
    requires Replay(events).Ok?
    ensures Guards(Close(Replay(events).value)) == GuardLines(events)
  {
    if events != [] {
      var n := |events| - 1;
      OneShiftPerGuardLine(events[..n]);
      var p := Replay(events[..n]).value;
      var e := events[n];
      if e.BeginsShift? {
        assert Close(p) + [Shift(e.guard, [])] == Close(Replay(events).value);
      } else if e.WakesUp? {
        assert Guards(Close(Replay(events).value)) == Guards(Close(p));
      }
    }
  }

  /** An unexpected event anywhere makes the whole parse raise. */
  lemma {:induction false} UnexpectedRaises(events: seq<Event>, i: nat)
    requires i < |events| && events[i].Unexpected?
    ensures Replay(events).Fail?
  {
    var n := |events| - 1;
    if i < n {
      UnexpectedRaises(events[..n], i);
    }
  }

  /** A wake-up before any guard line raises. */
  lemma WakeBeforeGuardRaises(m: int)
    ensures Replay([WakesUp(m)]).Fail?
  {
    assert [WakesUp(m)][..0] == [];
  }

  /** `parse_shifts`: the event loop over `shift` and `asleep`, then the
      open shift is added. */
  method ParseShifts(events: seq<Event>) returns (r: Result<seq<Shift>>)
    ensures r.Fail? <==> Replay(events).Fail?
    ensures r.Ok? ==> r.value == Close(Replay(events).value)
  {
    var shifts: seq<Shift> := [];
    var shift: Option<Shift> := None;
    var asleep: Option<int> := None;
    for i := 0 to |events|
      invariant Replay(events[..i]) == Ok(Progress(shifts, shift, asleep))
    {
      assert events[..i + 1][..i] == events[..i];
      assert Replay(events[..i + 1]) == Handle(Progress(shifts, shift, asleep), events[i]);
      match events[i]
      case BeginsShift(g) =>
        if shift.Some? {
          shifts := shifts + [shift.value];
        } else {
          assert Close(Progress(shifts, shift, asleep)) == shifts;
        }
        shift := Some(Shift(g, []));
      case FallsAsleep(m) =>
        asleep := Some(m);
      case WakesUp(m) =>
        if shift.None? || asleep.None? {
          FailureSticks(events, i + 1);
          assert events[..|events|] == events;
          return Fail("NoMethodError");
        }
        shift := Some(shift.value.(intervals := shift.value.intervals + [Interval(asleep.value, m)]));
      case Unexpected =>
        UnexpectedRaises(events, i);
        return Fail("Unexpected event");
    }
    assert events[..|events|] == events;
    if shift.Some? {
      shifts := shifts + [shift.value];
    }
    r := Ok(shifts);
  }

  /** Once the replay raises, every longer replay raises too. */
  lemma {:induction false} FailureSticks(events: seq<Event>, k: nat)
    requires k <= |events| && Replay(events[..k]).Fail?
    ensures Replay(events).Fail?
    decreases |events| - k
  {
    if k < |events| {
      assert events[..k + 1][..k] == events[..k];
      FailureSticks(events, k + 1);
    } else {
      assert events[..k] == events;
    }
  }

  // ---------------------------------------------------------------------
  // Minute counts.

  /** The sleep minutes of all the shifts, shift after shift. */
  function AllMinutes(shifts: seq<Shift>): seq<int>
  {
    if shifts == [] then []
    else AllMinutes(shifts[..|shifts| - 1]) + SleepMinutes(shifts[|shifts| - 1].intervals)
  }

  /** Every recorded minute is a minute of the hour, as `Time#min` gives. */
  predicate WithinHour(shifts: seq<Shift>)
  {
    forall i, k :: 0 <= i < |shifts| && 0 <= k < |shifts[i].intervals| ==>
      0 <= shifts[i].intervals[k].start <= 59 && 0 <= shifts[i].intervals[k].stop <= 59
  }

  lemma {:induction false} AllMinutesWithinHour(shifts: seq<Shift>)
    requires WithinHour(shifts)
    ensures forall j :: 0 <= j < |AllMinutes(shifts)| ==> 0 <= AllMinutes(shifts)[j] < 60
  {
    if shifts != [] {
      var n := |shifts| - 1;
      assert WithinHour(shifts[..n]) by {
        forall i, k | 0 <= i < n && 0 <= k < |shifts[..n][i].intervals|
          ensures 0 <= shifts[..n][i].intervals[k].start <= 59 && 0 <= shifts[..n][i].intervals[k].stop <= 59
        {
          assert shifts[..n][i] == shifts[i];
        }
      }
      AllMinutesWithinHour(shifts[..n]);
      ShiftMinutesWithinHour(shifts[n].intervals);
    }
  }

  lemma {:induction false} ShiftMinutesWithinHour(intervals: seq<Interval>)
    requires forall k :: 0 <= k < |intervals| ==> 0 <= intervals[k].start <= 59 && 0 <= intervals[k].stop <= 59
    ensures forall j :: 0 <= j < |SleepMinutes(intervals)| ==> 0 <= SleepMinutes(intervals)[j] < 60
  {
    if intervals != [] {
      ShiftMinutesWithinHour(intervals[..|intervals| - 1]);
    }
  }

  /** How often each minute `0..59` was slept. */
  function MinuteCounts(shifts: seq<Shift>): (r: seq<nat>)
    ensures |r| == 60
  {
    seq(60, m => Occurrences(AllMinutes(shifts), m))
  }

  /** `minutes = Array.new(60) { 0 }` followed by `minutes[min] += 1` for
      every sleep minute of every shift. */
  method CountMinutes(shifts: seq<Shift>) returns (counts: seq<nat>)
    requires WithinHour(shifts)
    ensures |counts| == 60
    ensures forall m :: 0 <= m < 60 ==> counts[m] == Occurrences(AllMinutes(shifts), m)
  {
    var minutes := new nat[60](_ => 0);
    AllMinutesWithinHour(shifts);
    var all := AllMinutes(shifts);
    for j := 0 to |all|
      invariant forall m :: 0 <= m < 60 ==> minutes[m] == Occurrences(all[..j], m)
    {
      assert all[..j + 1] == all[..j] + [all[j]];
      forall m | 0 <= m < 60
        ensures Occurrences(all[..j + 1], m) == Occurrences(all[..j], m) + (if all[j] == m then 1 else 0)
      {
        OccurrencesSnoc(all[..j], all[j], m);
      }
      minutes[all[j]] := minutes[all[j]] + 1;
    }
    assert all[..|all|] == all;
    counts := minutes[..];
  }

  function Max(s: seq<int>): (r: int)
    requires s != []
    ensures r in s && forall i :: 0 <= i < |s| ==> s[i] <= r
  {
    if |s| == 1 then s[0]
    else
      var m := Max(s[..|s| - 1]);
      assert s[..|s| - 1][|s| - 2] == s[|s| - 2];
      if s[|s| - 1] > m then s[|s| - 1] else m
  }

  /** `counts.index(counts.max)`: the first place of the largest count. */
  method FirstMaxIndex(counts: seq<int>) returns (i: nat)
    requires counts != []
    ensures i < |counts| && counts[i] == Max(counts)
    ensures forall j :: 0 <= j < i ==> counts[j] < counts[i]
  {
    i := 0;
    for j := 1 to |counts|
      invariant i < j && forall k :: 0 <= k < j ==> counts[k] <= counts[i]
      invariant forall k :: 0 <= k < i ==> counts[k] < counts[i]
    {
      if counts[j] > counts[i] {
        i := j;
      }
    }
  }

  /** `optimal_minute`: the first minute slept most often over `shifts`. */
  method OptimalMinute(shifts: seq<Shift>) returns (minute: nat)
    requires WithinHour(shifts)
    ensures minute < 60 && forall m :: 0 <= m < 60 ==>
      Occurrences(AllMinutes(shifts), m) <= Occurrences(AllMinutes(shifts), minute)
    ensures forall m :: 0 <= m < minute ==> Occurrences(AllMinutes(shifts), m) < Occurrences(AllMinutes(shifts), minute)
  {
    var counts := CountMinutes(shifts);
    minute := FirstMaxIndex(counts);
  }

  // ---------------------------------------------------------------------
  // Per guard.

  /** The guards in order of their first shift, as `group_by` lists them. */
  function GuardOrder(shifts: seq<Shift>): (r: seq<nat>)
    ensures Distinct(r)
    ensures forall g :: g in r <==> exists i :: 0 <= i < |shifts| && shifts[i].guard == g
  {
    if shifts == [] then []
    else
      var n := |shifts| - 1;
      var prior := GuardOrder(shifts[..n]);
      assert forall i :: 0 <= i < n ==> shifts[..n][i] == shifts[i];
      if shifts[n].guard in prior then prior else prior + [shifts[n].guard]
  }

  /** A guard's group: that guard's shifts in their original order. */
  function ShiftsOf(shifts: seq<Shift>, g: nat): (r: seq<Shift>)
    ensures forall s :: s in r <==> s in shifts && s.guard == g
  {
    if shifts == [] then []
    else ShiftsOf(shifts[..|shifts| - 1], g) + (if shifts[|shifts| - 1].guard == g then [shifts[|shifts| - 1]] else [])
  }

  /** `shifts.sum(&:sleep_time)`. */
  function TotalSleep(shifts: seq<Shift>): int
  {
    if shifts == [] then 0 else TotalSleep(shifts[..|shifts| - 1]) + SleepTime(shifts[|shifts| - 1].intervals)
  }

  datatype GuardTotal = GuardTotal(guard: nat, shifts: seq<Shift>, total: int)

  /** The last guard of `gs` with the largest total sleep. */
  function Sleepiest(shifts: seq<Shift>, gs: seq<nat>): (g: nat)
    requires gs != []
    ensures g in gs && forall h :: h in gs ==> TotalSleep(ShiftsOf(shifts, h)) <= TotalSleep(ShiftsOf(shifts, g))
  {
    if |gs| == 1 then gs[0]
    else
      var best := Sleepiest(shifts, gs[..|gs| - 1]);
      var last := gs[|gs| - 1];
      assert forall h :: h in gs ==> h in gs[..|gs| - 1] || h == last;
      if TotalSleep(ShiftsOf(shifts, last)) >= TotalSleep(ShiftsOf(shifts, best)) then last else best
  }

  /** `sleepiest_guard`: group the shifts by guard, total each group's
      sleep, sort by the total and take the last; `nil` without shifts. */
  function SleepiestGuard(shifts: seq<Shift>): (r: Option<GuardTotal>)
    ensures r.None? <==> shifts == []
    ensures r.Some? ==> ((exists i :: 0 <= i < |shifts| && shifts[i].guard == r.value.guard) &&
      r.value.shifts == ShiftsOf(shifts, r.value.guard) && r.value.total == TotalSleep(r.value.shifts))
    ensures r.Some? ==> forall i :: 0 <= i < |shifts| ==> TotalSleep(ShiftsOf(shifts, shifts[i].guard)) <= r.value.total
  {
    if shifts == [] then None
    else
      var gs := GuardOrder(shifts);
      assert shifts[0].guard in gs;
      var g := Sleepiest(shifts, gs);
      assert forall i :: 0 <= i < |shifts| ==> shifts[i].guard in gs;
      Some(GuardTotal(g, ShiftsOf(shifts, g), TotalSleep(ShiftsOf(shifts, g))))
  }

  lemma {:induction false} WithinHourOfGroup(shifts: seq<Shift>, g: nat)
    requires WithinHour(shifts)
    ensures WithinHour(ShiftsOf(shifts, g))
  {
    var r := ShiftsOf(shifts, g);
    forall i, k | 0 <= i < |r| && 0 <= k < |r[i].intervals|
      ensures 0 <= r[i].intervals[k].start <= 59 && 0 <= r[i].intervals[k].stop <= 59
    {
      assert r[i] in shifts;
      var j :| 0 <= j < |shifts| && shifts[j] == r[i];
    }
  }

  /** The largest minute count of guard `g`'s group. */
  function Peak(shifts: seq<Shift>, g: nat): int
  {
    Max(MinuteCounts(ShiftsOf(shifts, g)))
  }

  /** The `max` over the groups: the first guard of `gs` whose largest
      minute count is the largest. */
  method PeakGuard(shifts: seq<Shift>, gs: seq<nat>) returns (best: nat)
    requires WithinHour(shifts) && gs != []
    ensures best in gs
    ensures forall j :: 0 <= j < |gs| ==> Peak(shifts, gs[j]) <= Peak(shifts, best)
  {
    best := gs[0];
    var peak := GroupPeak(shifts, best);
    for k := 1 to |gs|
      invariant best in gs && peak == Peak(shifts, best)
      invariant forall j :: 0 <= j < k ==> Peak(shifts, gs[j]) <= peak
    {
      var challenger := GroupPeak(shifts, gs[k]);
      if challenger > peak {
        best, peak := gs[k], challenger;
      }
    }
  }

  /** Guard `g`'s minute counts, counted, and their largest value. */
  method GroupPeak(shifts: seq<Shift>, g: nat) returns (peak: int)
    requires WithinHour(shifts)
    ensures peak == Peak(shifts, g)
  {
    WithinHourOfGroup(shifts, g);
    var counts := CountMinutes(ShiftsOf(shifts, g));
    assert counts == MinuteCounts(ShiftsOf(shifts, g));
    peak := Max(counts);
  }

  datatype GuardMinute = GuardMinute(guard: nat, minute: nat)

  /** `most_sleepy_minute`: the guard whose most-slept minute was slept
      most often, with that minute (the first one if several tie); without
      shifts `max` yields `nil` and reading it raises. */
  method MostSleepyMinute(shifts: seq<Shift>) returns (r: Result<GuardMinute>)
    requires WithinHour(shifts)
    ensures r.Fail? <==> shifts == []
    ensures r.Ok? ==> exists i :: 0 <= i < |shifts| && shifts[i].guard == r.value.guard
    ensures r.Ok? ==> forall i :: 0 <= i < |shifts| ==> Peak(shifts, shifts[i].guard) <= Peak(shifts, r.value.guard)
    ensures r.Ok? ==> var counts := MinuteCounts(ShiftsOf(shifts, r.value.guard));
      r.value.minute < 60 && counts[r.value.minute] == Max(counts) &&
      forall m :: 0 <= m < r.value.minute ==> counts[m] < counts[r.value.minute]
  {
    if shifts == [] {
      return Fail("NoMethodError");
    }
    var gs := GuardOrder(shifts);
    assert shifts[0].guard in gs;
    var best := PeakGuard(shifts, gs);
    WithinHourOfGroup(shifts, best);
    var counts := CountMinutes(ShiftsOf(shifts, best));
    assert counts == MinuteCounts(ShiftsOf(shifts, best));
    var minute := FirstMaxIndex(counts);
    forall i | 0 <= i < |shifts|
      ensures Peak(shifts, shifts[i].guard) <= Peak(shifts, best)
    {
      assert shifts[i].guard in gs;
      var j :| 0 <= j < |gs| && gs[j] == shifts[i].guard;
    }
    r := Ok(GuardMinute(best, minute));
  }
}
