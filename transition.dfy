/** The rule both client timers use to pick the next segment: leaving work
    counts one more pomodoro and goes to a long break when the new count is a
    multiple of `session_until_long_break`, else to a short break; leaving any
    break goes back to work with the count unchanged. */
module Transition {
  import opened Common

  /** JavaScript's `c % n === 0` on a non-negative count: false when n is 0
      (the remainder is NaN), divisibility otherwise. */
  predicate MultipleOf(c: nat, n: int) {
    n != 0 && c % n == 0
  }

  /** The next segment type and pomodoro count after leaving a `t` segment. */
  function Next(t: SubSessionType, count: nat, n: int): (SubSessionType, nat) {
    if t == Work then
      var c := count + 1;
      (if MultipleOf(c, n) then LongBreak else ShortBreak, c)
    else (Work, count)
  }

  /** The transition always alternates between work and a break, and only
      leaving work changes the count, by exactly one. */
  lemma NextAlternates(t: SubSessionType, count: nat, n: int)
    ensures (Next(t, count, n).0 == Work) <==> (t != Work)
    ensures Next(t, count, n).1 == if t == Work then count + 1 else count
    ensures Next(t, count, n).0 == LongBreak <==> t == Work && MultipleOf(count + 1, n)
  {
  }

  /** The segment type and count after `k` transitions. */
  function After(t: SubSessionType, count: nat, n: int, k: nat): (SubSessionType, nat) {
    if k == 0 then (t, count)
    else
      var p := After(t, count, n, k - 1);
      Next(p.0, p.1, n)
  }

  lemma {:induction false} MulAtLeast(n: int, d: nat)
    requires n >= 1 && d >= 1
    ensures n * d >= n
  {
    if d > 1 {
      MulAtLeast(n, d - 1);
      assert n * d == n * (d - 1) + n;
    }
  }

  /** The remainder of q*n + r is r when 0 <= r < n. */
  lemma MultiplePlus(q: int, n: int, r: int)
    requires n >= 1 && 0 <= r < n
    ensures (q * n + r) % n == r
  {
    var y := q * n + r;
    var d := y / n - q;
    assert n * d == r - y % n by {
      assert y == n * (y / n) + y % n;
      assert n * d == n * (y / n) - n * q;
    }
    if d >= 1 {
      MulAtLeast(n, d);
    }
  }

  /** From a multiple of n, the count m + 1 steps later is again a multiple
      exactly when m + 1 == n (for m < n). */
  lemma NextMultiple(count: nat, n: int, m: nat)
    requires n >= 1 && count % n == 0 && m < n
    ensures MultipleOf(count + m + 1, n) <==> m == n - 1
  {
    var q := count / n;
    assert count == q * n by { assert count == n * (count / n) + count % n; }
    if m + 1 < n {
      MultiplePlus(q, n, m + 1);
    } else {
      MultiplePlus(q + 1, n, 0);
      assert count + m + 1 == (q + 1) * n + 0;
    }
  }

  /** Within a cycle that starts at a multiple of n, the 2m-th segment is work
      with m more pomodoros, and the next one is a short break except after
      the n-th work segment, where it is the long break. */
  lemma {:induction false} WithinCycle(count: nat, n: int, m: nat)
    requires n >= 1 && count % n == 0 && m < n
    ensures After(Work, count, n, 2 * m) == (Work, count + m)
    ensures After(Work, count, n, 2 * m + 1)
         == (if m == n - 1 then LongBreak else ShortBreak, count + m + 1)
  {
    if m > 0 {
      WithinCycle(count, n, m - 1);
      assert m - 1 != n - 1;
    }
    NextMultiple(count, n, m);
  }

  /** A full cycle from a multiple of n: 2n segments, work at every even
      position, a short break at every odd one but the last, the long break
      last, and then work again with n more pomodoros. */
  lemma CycleShape(count: nat, n: int)
    requires n >= 1 && count % n == 0
    ensures forall i: nat :: i < 2 * n ==>
              After(Work, count, n, i).0 ==
                (if i % 2 == 0 then Work else if i == 2 * n - 1 then LongBreak else ShortBreak)
    ensures After(Work, count, n, 2 * n) == (Work, count + n)
  {
    forall i: nat | i < 2 * n
      ensures After(Work, count, n, i).0 ==
                (if i % 2 == 0 then Work else if i == 2 * n - 1 then LongBreak else ShortBreak)
    {
      WithinCycle(count, n, i / 2);
      assert i == 2 * (i / 2) + i % 2;
    }
    WithinCycle(count, n, n - 1);
    assert 2 * n == 2 * (n - 1) + 1 + 1;
  }
}
