/** The two polling loops of a cold cycle, over a clock that never runs backwards. */
module PowerWindow {

  datatype Presence = Present | Absent | Invalid

  /** A sample of the target's presence; `at` is the unrounded time it was taken. */
  datatype Sample = Sample(at: real, state: Presence)

  /** The clock and the target. Every use of the clock may take time, a sleep takes at least as long
      as it was asked to, and the target is in whatever state it is in. */
  class Bench {
    const delay: nat -> real
    const target: nat -> Presence
    var time: real
    var uses: nat
    var taken: nat
    var slept: real // the time it was asked to sleep

    constructor (delay: nat -> real, target: nat -> Presence)
      requires forall k :: delay(k) >= 0.0
      ensures Valid()
    {
      this.delay, this.target := delay, target;
      time, uses, taken, slept := 0.0, 0, 0, 0.0;
    }

    ghost predicate Valid()
      reads this
    {
      forall k :: delay(k) >= 0.0
    }

    method Clock() returns (t: real)
      requires Valid()
      modifies this
      ensures Valid() && t == time >= old(time) && taken == old(taken) && slept == old(slept)
    {
      time, uses := time + delay(uses), uses + 1;
      t := time;
    }

    method Sleep(seconds: real)
      requires Valid() && seconds >= 0.0
      modifies this
      ensures Valid() && time >= old(time) + seconds && taken == old(taken) && slept == old(slept) + seconds
    {
      time, uses, slept := time + seconds + delay(uses), uses + 1, slept + seconds;
    }

    /** `target_presence_sample` */
    method TakeSample() returns (s: Sample)
      requires Valid()
      modifies this
      ensures Valid() && old(time) <= s.at == time && slept == old(slept)
      ensures taken == old(taken) + 1 && s.state == target(old(taken))
    {
      var state := target(taken);
      taken := taken + 1;
      var t := Clock();
      s := Sample(t, state);
    }

    /** `wait_for_target_state`: it sleeps one poll after every sample that is not the desired one, and
        otherwise not at all. */
    method WaitForTargetState(present: bool, timeout: real, poll: real) returns (ok: bool, samples: seq<Sample>)
      requires Valid() && poll > 0.0
      modifies this
      ensures Valid()
      ensures |samples| <= if timeout < 0.0 then 0 else (timeout / poll).Floor + 1
      ensures forall i :: 0 <= i < |samples| ==> samples[i].state == target(old(taken) + i)
      ensures var desired := if present then Present else Absent;
        && (forall i :: 0 <= i < |samples| - 1 ==> samples[i].state != desired)
        && (ok <==> samples != [] && samples[|samples| - 1].state == desired)
      ensures !ok ==> time > old(time) + timeout
      ensures slept == old(slept) + Times(if ok then |samples| - 1 else |samples|, poll) && taken == old(taken) + |samples|
    {
      hide Times, Left;
      Zero(poll);
      var t := Clock();
      var deadline := t + timeout;
      samples := [];
      var desired := if present then Present else Absent;
      t := Clock();
      while t <= deadline
        invariant Valid() && t == time && deadline >= old(time) + timeout && taken == old(taken) + |samples|
        invariant slept == old(slept) + Times(|samples|, poll)
        invariant time >= deadline - timeout + Times(|samples|, poll)
        invariant samples != [] ==> timeout >= 0.0 && |samples| - 1 <= (timeout / poll).Floor
        invariant forall i :: 0 <= i < |samples| ==> samples[i].state == target(old(taken) + i) && samples[i].state != desired
        decreases Left(deadline - time, poll)
      {
        ghost var before := time;
        var s := TakeSample();
        samples := samples + [s];
        AtMostFloor(|samples| - 1, poll, timeout);
        if s.state == desired {
          return true, samples;
        }
        Sleep(poll);
        OneMore(|samples| - 1, poll);
        t := Clock();
        LeftDecreases(deadline - before, deadline - time, poll);
      }
      ok := false;
    }

    /** `prove_power_off_window`: the loop body's sleep is cut short at the end of the window, and no
        sleep between two samples is longer than a poll. */
    method ProvePowerOffWindow(minimum: real, poll: real) returns (ok: bool, samples: seq<Sample>, duration: real)
      requires Valid() && poll > 0.0
      modifies this
      ensures Valid()
      ensures 1 <= |samples| <= if minimum <= 0.0 then 1 else Ceiling(minimum / poll) + 1
      ensures forall i :: 0 <= i < |samples| ==> samples[i].state == target(old(taken) + i)
      ensures forall i :: 0 <= i < |samples| - 1 ==> samples[i].state == Absent
      ensures ok ==> samples[|samples| - 1].state == Absent && duration >= minimum
      ensures !ok ==> samples[|samples| - 1].state != Absent
      ensures 0.0 <= samples[|samples| - 1].at - samples[0].at <= duration <= time - old(time)
      ensures slept <= old(slept) + Times(|samples| - 1, poll) && taken == old(taken) + |samples|
    {
      hide Times, Ceiling, Left;
      Zero(poll);
      if minimum > 0.0 { BelowCeiling(0, poll, minimum); }
      var started := Clock();
      samples := [];
      var t := Clock();
      while t - started < minimum
        invariant Valid() && t == time >= started && taken == old(taken) + |samples|
        invariant t - started < minimum ==> time >= started + Times(|samples|, poll)
        invariant slept <= old(slept) + Times(|samples|, poll)
        invariant samples != [] ==> minimum > 0.0 && |samples| <= Ceiling(minimum / poll)
        invariant samples != [] ==> started <= samples[0].at <= samples[|samples| - 1].at <= time
        invariant forall i :: 0 <= i < |samples| ==> samples[i].state == target(old(taken) + i) && samples[i].state == Absent
        decreases if t - started < minimum then Left(minimum - (time - started), poll) else 0
      {
        ghost var before := time;
        BelowCeiling(|samples|, poll, minimum);
        var s := TakeSample();
        samples := samples + [s];
        if s.state != Absent {
          t := Clock();
          return false, samples, Max(0.0, t - started);
        }
        t := Clock();
        Sleep(Min(poll, Max(0.0, minimum - (t - started))));
        OneMore(|samples| - 1, poll);
        t := Clock();
        WindowDecreases(minimum - (before - started), minimum - (time - started), poll);
      }
      var final := TakeSample();
      samples := samples + [final];
      t := Clock();
      duration := Max(0.0, t - started);
      ok := final.state == Absent;
    }
  }

  function Max(x: real, y: real): real {
    if x < y then y else x
  }

  function Min(x: real, y: real): real {
    if y < x then y else x
  }

  /** A sleep either fills the window or lasts a whole poll. */
  lemma WindowDecreases(before: real, after: real, poll: real)
    requires poll > 0.0 && before > 0.0 && (after <= before - poll || after <= 0.0)
    ensures (if after > 0.0 then Left(after, poll) else 0) < Left(before, poll)
    ensures after > 0.0 ==> Left(after, poll) >= 0
  {
    DivideMonotone(0.0, before, poll);
    if after <= before - poll {
      LeftDecreases(before, after, poll);
    }
  }

  /** `n * x` */
  ghost function Times(n: int, x: real): real {
    n as real * x
  }

  lemma Zero(x: real)
    ensures Times(0, x) == 0.0
  {
  }

  lemma OneMore(n: int, x: real)
    ensures Times(n + 1, x) == Times(n, x) + x
  {
  }

  lemma ScaleStrict(a: real, b: real, x: real)
    requires x > 0.0 && a < b
    ensures a * x < b * x
  {
  }

  lemma ScaleWeak(a: real, b: real, x: real)
    requires x > 0.0 && a <= b
    ensures a * x <= b * x
  {
  }

  lemma DivideLess(b: real, x: real)
    requires x > 0.0
    ensures (b - x) / x == b / x - 1.0
  {
    var p, q := (b - x) / x, b / x;
    assert p * x == b - x && q * x == b && (q - 1.0) * x == q * x - x;
    if p < q - 1.0 { ScaleStrict(p, q - 1.0, x); }
    if q - 1.0 < p { ScaleStrict(q - 1.0, p, x); }
  }

  lemma DivideMonotone(a: real, b: real, x: real)
    requires x > 0.0 && a <= b
    ensures a / x <= b / x && (a == 0.0 ==> a / x == 0.0)
  {
    var p, q := a / x, b / x;
    assert p * x == a && q * x == b;
    if q < p { ScaleStrict(q, p, x); }
  }

  lemma AtMostFloor(n: int, x: real, limit: real)
    requires x > 0.0 && Times(n, x) <= limit
    ensures n <= (limit / x).Floor
  {
    var q := limit / x;
    assert q * x == limit;
    if n as real > q { ScaleStrict(q, n as real, x); }
  }

  /** The least integer that is not smaller. */
  ghost function Ceiling(x: real): int {
    if x.Floor as real == x then x.Floor else x.Floor + 1
  }

  lemma BelowCeiling(n: int, x: real, limit: real)
    requires x > 0.0 && Times(n, x) < limit
    ensures n + 1 <= Ceiling(limit / x)
  {
    var q := limit / x;
    assert q * x == limit;
    if q <= n as real { ScaleWeak(q, n as real, x); }
  }

  /** How many more times `poll` fits. */
  ghost function Left(remaining: real, poll: real): int
    requires poll > 0.0
  {
    if remaining < 0.0 then 0 else (remaining / poll).Floor + 1
  }

  lemma LeftDecreases(before: real, after: real, poll: real)
    requires poll > 0.0 && before >= 0.0 && after <= before - poll
    ensures 0 <= Left(after, poll) < Left(before, poll)
  {
    DivideMonotone(0.0, before, poll);
    if after >= 0.0 {
      DivideMonotone(after, before - poll, poll);
      DivideLess(before, poll);
    }
  }
}
