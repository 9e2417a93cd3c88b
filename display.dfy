/** What the timer page derives from the timer state for display: the row of
    progress bars (one work bar and one break bar per pomodoro of a cycle),
    the "pomodoro k of n" caption, the cycle number, the status message and
    which controls are offered. The same arithmetic appears in
    `ProgressBars` and `StatusSection` and in the TimePage view. */
module Display {
  import opened Common
  import opened Schema
  import opened Transition

  /** JavaScript's `Math.floor(a / b)` for a non-zero divisor. */
  function FloorDiv(a: int, b: int): (r: int)
    requires b != 0
    ensures b > 0 ==> b * r <= a < b * r + b
    ensures b < 0 ==> b * r + b < a <= b * r
  {
    if b > 0 then a / b else (-a) / (-b)
  }

  /** Dividing q*n + r by n, for 0 <= r < n, gives q. */
  lemma DivPlus(q: int, n: int, r: int)
    requires n >= 1 && 0 <= r < n
    ensures (q * n + r) / n == q
  {
    var y := q * n + r;
    MultiplePlus(q, n, r);
    var d := y / n - q;
    assert n * d == 0 by {
      assert y == n * (y / n) + y % n;
      assert n * d == n * (y / n) - n * q;
    }
  }

  /** One bar of the progress row: a work bar (`isWork`) or the break bar
      after it, its pomodoro `index` within the cycle, whether it is drawn
      full (`completed`), whether it carries the live progress (`current`),
      and, for a break bar, whether it is coloured as the long break. */
  datatype Bar = Bar(isWork: bool, index: int, completed: bool, current: bool, breakIsLong: bool)

  /** `adjustedRestIndex`: the break bar that belongs to pomodoro `k - 1`,
      wrapping to the last one when `k` is 0. */
  function AdjustedRest(k: int, n: int): (r: int)
    requires n >= 1 && 0 <= k < n
    ensures 0 <= r < n
    ensures r == if k == 0 then n - 1 else k - 1
  {
    AdjustedRestValue(k, n);
    (k - 1 + n) % n
  }

  lemma AdjustedRestValue(k: int, n: int)
    requires n >= 1 && 0 <= k < n
    ensures (k - 1 + n) % n == if k == 0 then n - 1 else k - 1
  {
    if k == 0 {
      MultiplePlus(0, n, n - 1);
      assert 0 * n + (n - 1) == k - 1 + n;
    } else {
      MultiplePlus(1, n, k - 1);
      assert 1 * n + (k - 1) == k - 1 + n;
    }
  }

  /** Bar `i` of the row, `k` being `currentPomodoroInCycle`. */
  function Segment(i: nat, k: int, n: int, t: SubSessionType): Bar
    requires n >= 1 && 0 <= k < n
  {
    var j := i / 2;
    if i % 2 == 0 then Bar(true, j, j < k || t == LongBreak, j == k && t == Work, false)
    else
      var a := AdjustedRest(k, n);
      Bar(false, j, if t == Work then j < k else j < a, j == a && t != Work, j == n - 1)
  }

  /** The position of the bar the current segment fills: the k-th work bar
      during work, the break bar of the adjusted index during a break. */
  function CurrentBar(n: int, count: nat, t: SubSessionType): (r: int)
    requires n >= 1
    ensures 0 <= r < 2 * n
    ensures (r % 2 == 0) <==> t == Work
  {
    var k := count % n;
    if t == Work then 2 * k else 2 * AdjustedRest(k, n) + 1
  }

  /** The row of bars: `2n` of them (none for a non-positive n, as
      `Array.from` makes an empty array from a negative length), alternating
      work and break, the last break bar the long one, and exactly one
      current bar. */
  function Bars(n: int, count: nat, t: SubSessionType): (r: seq<Bar>)
    ensures |r| == if n >= 1 then 2 * n else 0
    ensures forall i :: 0 <= i < |r| ==> r[i].isWork == (i % 2 == 0) && r[i].index == i / 2
    ensures forall i :: 0 <= i < |r| ==> (r[i].breakIsLong <==> i == 2 * n - 1)
    ensures forall i :: 0 <= i < |r| ==> (r[i].current <==> i == CurrentBar(n, count, t))
  {
    if n < 1 then []
    else
      var k := count % n;
      var r := seq(2 * n, i requires 0 <= i < 2 * n => Segment(i, k, n, t));
      assert forall i :: 0 <= i < |r| ==> i == 2 * (i / 2) + i % 2;
      r
  }

  /** `ProgressBars`: nothing without a session, otherwise the session's row. */
  function ProgressRow(session: Option<AggregatedRow>, count: nat, t: SubSessionType): (r: Option<seq<Bar>>)
    ensures r.None? <==> session.None?
    ensures r.Some? ==> r.value == Bars(session.value.config.sessionUntilLongBreak, count, t)
  {
    if session.None? then None
    else Some(Bars(session.value.config.sessionUntilLongBreak, count, t))
  }

  /** A timer state the transition rule can produce: during a break, the
      break is the long one exactly when the count is a multiple of n. */
  predicate Consistent(t: SubSessionType, count: nat, n: int) {
    t != Work ==> (t == LongBreak <==> MultipleOf(count, n))
  }

  /** In a consistent state every bar before the current one is full and
      every bar from it on is not. */
  lemma FilledUpToCurrent(n: int, count: nat, t: SubSessionType)
    requires n >= 1 && Consistent(t, count, n)
    ensures forall i :: 0 <= i < 2 * n ==>
              (Bars(n, count, t)[i].completed <==> i < CurrentBar(n, count, t))
  {
    var bars := Bars(n, count, t);
    var k := count % n;
    forall i | 0 <= i < 2 * n ensures bars[i].completed <==> i < CurrentBar(n, count, t) {
      assert i == 2 * (i / 2) + i % 2;
      assert bars[i] == Segment(i, k, n, t);
    }
  }

  /** The long-break bar is the current one exactly during the long break. */
  lemma LastBarIsLongBreak(n: int, count: nat, t: SubSessionType)
    requires n >= 1 && Consistent(t, count, n)
    ensures CurrentBar(n, count, t) == 2 * n - 1 <==> t == LongBreak
  {
  }

  /** Going from c to c + 1: one further along the same round of n, or, from
      the last place, to the start of the next round. */
  lemma SuccMod(c: int, n: int)
    requires n >= 1
    ensures c % n + 1 < n ==> (c + 1) % n == c % n + 1 && (c + 1) / n == c / n
    ensures c % n + 1 == n ==> (c + 1) % n == 0 && (c + 1) / n == c / n + 1
  {
    var q, r := c / n, c % n;
    assert c == n * q + r;
    if r + 1 < n {
      assert c + 1 == q * n + (r + 1);
      MultiplePlus(q, n, r + 1);
      DivPlus(q, n, r + 1);
    } else {
      assert c + 1 == (q + 1) * n + 0;
      MultiplePlus(q + 1, n, 0);
      DivPlus(q + 1, n, 0);
    }
  }

  /** Each transition moves the highlight one bar on, wrapping to the first
      bar after the long break; the cycle number goes up by one exactly when
      a long break ends; and the next state is consistent again. */
  lemma HighlightAdvances(t: SubSessionType, count: nat, n: int)
    requires n >= 1 && Consistent(t, count, n)
    ensures var s := Next(t, count, n);
      && Consistent(s.0, s.1, n)
      && CurrentBar(n, s.1, s.0)
         == (if CurrentBar(n, count, t) == 2 * n - 1 then 0 else CurrentBar(n, count, t) + 1)
      && CycleNumber(s.1, s.0, n)
         == Some(CycleNumber(count, t, n).value + (if t == LongBreak then 1 else 0))
  {
    if t == Work {
      SuccMod(count, n);
    } else if t == LongBreak {
      SuccMod(count - 1, n);
    }
  }

  /** Starting with work at a multiple of n, after i transitions the bar
      highlighted is bar i of the cycle (counted modulo 2n) and the cycle
      shown is the starting one plus the number of whole cycles gone by. */
  lemma {:induction false} DisplayAfter(count: nat, n: int, i: nat)
    requires n >= 1 && count % n == 0
    ensures var s := After(Work, count, n, i);
      && Consistent(s.0, s.1, n)
      && CurrentBar(n, s.1, s.0) == i % (2 * n)
      && CycleNumber(s.1, s.0, n) == Some(count / n + i / (2 * n) + 1)
  {
    if i == 0 {
      MultiplePlus(0, 2 * n, 0);
      assert 0 * (2 * n) + 0 == 0;
      DivPlus(0, 2 * n, 0);
    } else {
      var p := After(Work, count, n, i - 1);
      var s := After(Work, count, n, i);
      assert s == Next(p.0, p.1, n);
      DisplayAfter(count, n, i - 1);
      HighlightAdvances(p.0, p.1, n);
      LastBarIsLongBreak(n, p.1, p.0);
      SuccMod(i - 1, 2 * n);
      var m := 2 * n;
      var prev := CurrentBar(n, p.1, p.0);
      assert prev == (i - 1) % m;
      if prev == m - 1 {
        assert CurrentBar(n, s.1, s.0) == 0 == i % m;
        assert p.0 == LongBreak;
      } else {
        assert CurrentBar(n, s.1, s.0) == prev + 1 == i % m;
        assert p.0 != LongBreak;
      }
    }
  }

  /** The caption under the bars: "pomodoro current of total" during work,
      "breaking time" otherwise. `current` is None when the remainder is NaN
      (n is 0). */
  datatype Caption = PomodoroOf(current: Option<int>, total: int) | BreakingTime

  /** `currentPomodoroInCycle + 1` of `session_until_long_break`. For a
      non-negative count JavaScript's `%` agrees with the Euclidean one
      whatever the divisor's sign. */
  function Label(n: int, count: nat, t: SubSessionType): (r: Caption)
    ensures r.BreakingTime? <==> t != Work
    ensures r.PomodoroOf? ==> r.total == n && (r.current.None? <==> n == 0)
    ensures r.PomodoroOf? && n >= 1 ==>
              1 <= r.current.value <= n && r.current.value == CurrentBar(n, count, t) / 2 + 1
  {
    if t != Work then BreakingTime
    else if n == 0 then PomodoroOf(None, n)
    else PomodoroOf(Some(count % n + 1), n)
  }

  /** The cycle number `Math.floor((count - (long break ? 1 : 0)) / n) + 1`;
      None when the division is by 0 and the result is not a finite number. */
  function CycleNumber(count: nat, t: SubSessionType, n: int): (r: Option<int>)
    ensures r.None? <==> n == 0
  {
    if n == 0 then None
    else Some(FloorDiv(count - (if t == LongBreak then 1 else 0), n) + 1)
  }

  /** With a positive n the cycle shown is at least 1, except in a long break
      at count 0, which the transition rule never produces. */
  lemma CycleAtLeastOne(count: nat, t: SubSessionType, n: int)
    requires n >= 1
    ensures count >= 1 || t != LongBreak ==> CycleNumber(count, t, n).value >= 1
    ensures Consistent(t, count, n) && t == LongBreak && count >= 1 ==>
              CycleNumber(count, t, n).value == count / n
  {
    if t == LongBreak {
      SuccMod(count - 1, n);
    }
  }

  /** `StatusSection`'s cycle number: n is taken as 0 without a session. */
  function StatusCycle(session: Option<AggregatedRow>, count: nat, t: SubSessionType): (r: Option<int>)
    ensures session.None? ==> r.None?
    ensures session.Some? ==> r == CycleNumber(count, t, session.value.config.sessionUntilLongBreak)
  {
    CycleNumber(count, t, if session.Some? then session.value.config.sessionUntilLongBreak else 0)
  }

  /** The status line under the type badge. */
  datatype Message = ReadyToFocus | StayFocused | Paused | TakeBreak

  /** `getMessage`: during work, ready when paused and focused when running,
      so the paused message is never chosen; during a break, take a break. */
  function StatusMessage(t: SubSessionType, isRunning: bool): (r: Message)
    ensures r != Paused
    ensures r == TakeBreak <==> t != Work
    ensures r == StayFocused <==> t == Work && isRunning
  {
    if t == Work then (if !isRunning then ReadyToFocus else if isRunning then StayFocused else Paused)
    else TakeBreak
  }

  /** The controls of the TimePage view: start or pause, reset, skip, and
      End Session. */
  datatype Controls = Controls(
    showsStart: bool,
    resetEnabled: bool,
    skipShown: bool,
    skipEnabled: bool,
    endSessionEnabled: bool)

  /** Start is offered when paused and pause when running; reset and End
      Session are disabled while running; skip appears only during a break
      and is disabled while running. */
  function TimePageControls(t: SubSessionType, isRunning: bool): (r: Controls)
    ensures r.showsStart <==> !isRunning
    ensures r.resetEnabled <==> !isRunning
    ensures r.endSessionEnabled <==> !isRunning
    ensures r.skipShown <==> t != Work
    ensures r.skipEnabled <==> t != Work && !isRunning
  {
    var shown := t != Work;
    Controls(!isRunning, !isRunning, shown, shown && !isRunning, !isRunning)
  }

  /** An enabled skip button is refused by the timer only at zero seconds
      left: its refusal condition is running, at zero, or during work. */
  lemma EnabledSkipProceeds(t: SubSessionType, isRunning: bool, timeLeft: int)
    ensures TimePageControls(t, isRunning).skipEnabled ==>
              (isRunning || timeLeft == 0 || t == Work <==> timeLeft == 0)
  {
  }
}
