/** The session summary shown when a session ends: the sub-sessions grouped
    into numbered cycles, each closed by a long break, and the total time spent
    on breaks. The modal groups the server's list (oldest first); the ended
    screen groups the offline timer's local records. */
module Cycles {
  import opened Common
  import opened Schema

  datatype Cycle<T> = Cycle(cycleNumber: int, subSessions: seq<T>)

  /** The cycles' lists, concatenated in order. */
  function Flatten<T>(cs: seq<Cycle<T>>): seq<T> {
    if cs == [] then [] else Flatten(cs[..|cs| - 1]) + cs[|cs| - 1].subSessions
  }

  /** No long break among the given items. */
  ghost predicate NoLongBreak<T>(s: seq<T>, kindOf: T -> SubSessionType) {
    forall k :: 0 <= k < |s| ==> kindOf(s[k]) != LongBreak
  }

  /** One cycle's list: non-empty, a long break at most at its end, and, if
      `closed`, a long break there. */
  ghost predicate CycleShape<T>(s: seq<T>, kindOf: T -> SubSessionType, closed: bool) {
    && |s| > 0
    && NoLongBreak(s[..|s| - 1], kindOf)
    && (closed ==> kindOf(s[|s| - 1]) == LongBreak)
  }

  /** A well-formed grouping: numbered 1..k in order, no cycle empty, a long
      break only at the end of a cycle, and every cycle but the last closed
      by one. */
  ghost predicate WellGrouped<T>(cs: seq<Cycle<T>>, kindOf: T -> SubSessionType) {
    forall j :: 0 <= j < |cs| ==>
      cs[j].cycleNumber == j + 1 && CycleShape(cs[j].subSessions, kindOf, j < |cs| - 1)
  }

  /** The last cycle, if any, is closed by a long break. */
  ghost predicate LastClosed<T>(cs: seq<Cycle<T>>, kindOf: T -> SubSessionType) {
    cs != [] ==> CycleShape(cs[|cs| - 1].subSessions, kindOf, true)
  }

  /** Appending the next cycle to a grouping whose cycles so far are all
      closed keeps it well grouped. */
  lemma AppendCycle<T>(cs: seq<Cycle<T>>, c: Cycle<T>, kindOf: T -> SubSessionType)
    requires WellGrouped(cs, kindOf) && LastClosed(cs, kindOf)
    requires c.cycleNumber == |cs| + 1 && CycleShape(c.subSessions, kindOf, false)
    ensures WellGrouped(cs + [c], kindOf)
    ensures Flatten(cs + [c]) == Flatten(cs) + c.subSessions
  {
    var r := cs + [c];
    assert r[..|cs|] == cs;
    forall j | 0 <= j < |r| ensures r[j].cycleNumber == j + 1 && CycleShape(r[j].subSessions, kindOf, j < |r| - 1) {
      if j < |cs| {
        assert r[j] == cs[j];
      }
    }
  }

  /** Pushing one item onto the open cycle. */
  lemma Push<T>(open: seq<T>, x: T, kindOf: T -> SubSessionType)
    requires NoLongBreak(open, kindOf)
    ensures CycleShape(open + [x], kindOf, kindOf(x) == LongBreak)
    ensures kindOf(x) != LongBreak ==> NoLongBreak(open + [x], kindOf)
  {
    assert (open + [x])[..|open|] == open;
  }

  /** The loop's invariant after `i` items: the closed cycles and the open
      one hold exactly those items, in order. */
  ghost predicate Grouping<T>(items: seq<T>, i: int, cycles: seq<Cycle<T>>, current: Cycle<T>,
                              kindOf: T -> SubSessionType)
  {
    && 0 <= i <= |items|
    && Flatten(cycles) + current.subSessions == items[..i]
    && WellGrouped(cycles, kindOf) && LastClosed(cycles, kindOf)
    && current.cycleNumber == |cycles| + 1
    && NoLongBreak(current.subSessions, kindOf)
    && (i == 0 ==> cycles == [] && current.subSessions == [])
  }

  /** One iteration: push item i; after a long break, close the cycle. */
  lemma GroupStep<T>(items: seq<T>, i: int, cycles: seq<Cycle<T>>, current: Cycle<T>,
                     kindOf: T -> SubSessionType)
    requires Grouping(items, i, cycles, current, kindOf) && i < |items|
    ensures var pushed := current.(subSessions := current.subSessions + [items[i]]);
      if kindOf(items[i]) == LongBreak
      then Grouping(items, i + 1, cycles + [pushed], Cycle(pushed.cycleNumber + 1, []), kindOf)
      else Grouping(items, i + 1, cycles, pushed, kindOf)
  {
    var pushed := current.(subSessions := current.subSessions + [items[i]]);
    Push(current.subSessions, items[i], kindOf);
    assert Flatten(cycles) + pushed.subSessions == items[..i + 1] by {
      assert items[..i + 1] == items[..i] + [items[i]];
    }
    if kindOf(items[i]) == LongBreak {
      AppendCycle(cycles, pushed, kindOf);
    }
  }

  /** After the loop: a non-empty open cycle becomes the last one. */
  lemma GroupEnd<T>(items: seq<T>, cycles: seq<Cycle<T>>, current: Cycle<T>, kindOf: T -> SubSessionType)
    requires Grouping(items, |items|, cycles, current, kindOf)
    ensures var r := if |current.subSessions| > 0 then cycles + [current] else cycles;
      && Flatten(r) == items
      && WellGrouped(r, kindOf)
      && (items == [] <==> r == [])
  {
    assert items[..|items|] == items;
    if |current.subSessions| > 0 {
      AppendCycle(cycles, current, kindOf);
    } else if cycles != [] {
      assert Flatten(cycles) == Flatten(cycles[..|cycles| - 1]) + cycles[|cycles| - 1].subSessions;
    }
  }

  /** The `cycles` loop: push each sub-session onto the open cycle, close the
      cycle after a long break, and keep a non-empty remainder as the last
      cycle. */
  method GroupCycles<T>(items: seq<T>, kindOf: T -> SubSessionType) returns (cycles: seq<Cycle<T>>)
    ensures Flatten(cycles) == items
    ensures WellGrouped(cycles, kindOf)
    ensures items == [] <==> cycles == []
  {
    cycles := [];
    var current := Cycle(1, []);
    var i := 0;
    while i < |items|
      invariant Grouping(items, i, cycles, current, kindOf)
    {
      GroupStep(items, i, cycles, current, kindOf);
      current := current.(subSessions := current.subSessions + [items[i]]);
      if kindOf(items[i]) == LongBreak {
        cycles := cycles + [current];
        current := Cycle(current.cycleNumber + 1, []);
      }
      i := i + 1;
    }
    GroupEnd(items, cycles, current, kindOf);
    if |current.subSessions| > 0 {
      cycles := cycles + [current];
    }
  }

  /** `SessionEndedModal`'s `cycles`: none until the list has loaded. */
  method ModalCycles(data: Option<seq<SubSessionRow>>) returns (cycles: seq<Cycle<SubSessionRow>>)
    ensures data.None? ==> cycles == []
    ensures data.Some? ==> Flatten(cycles) == data.value
    ensures WellGrouped(cycles, (r: SubSessionRow) => r.kind)
  {
    if data.None? {
      return [];
    }
    cycles := GroupCycles(data.value, (r: SubSessionRow) => r.kind);
  }

  /** `SessionEndedScreen`'s `cycles`: none without a session, otherwise the
      timer's local records grouped. */
  method ScreenCycles(session: Option<AggregatedRow>, records: seq<SegmentRecord>)
    returns (cycles: seq<Cycle<SegmentRecord>>)
    ensures session.None? ==> cycles == []
    ensures session.Some? ==> Flatten(cycles) == records
    ensures WellGrouped(cycles, (r: SegmentRecord) => r.kind)
  {
    if session.None? {
      return [];
    }
    cycles := GroupCycles(records, (r: SegmentRecord) => r.kind);
  }

  /** The summed elapsed seconds of the items that are work (`work`) or that
      are breaks (`!work`). */
  function TimeOf<T>(items: seq<T>, kindOf: T -> SubSessionType, elapsedOf: T -> int, work: bool): int {
    if items == [] then 0
    else
      var last := items[|items| - 1];
      TimeOf(items[..|items| - 1], kindOf, elapsedOf, work) +
        (if (kindOf(last) == Work) == work then elapsedOf(last) else 0)
  }

  /** `totalBreakTime`: the elapsed seconds of the non-work items. */
  function BreakTime<T>(items: seq<T>, kindOf: T -> SubSessionType, elapsedOf: T -> int): (r: int)
    ensures (forall k :: 0 <= k < |items| ==> elapsedOf(items[k]) >= 0) ==> r >= 0
    ensures (forall k :: 0 <= k < |items| ==> kindOf(items[k]) == Work) ==> r == 0
  {
    BreakTimeBounds(items, kindOf, elapsedOf);
    TimeOf(items, kindOf, elapsedOf, false)
  }

  lemma {:induction false} BreakTimeBounds<T>(items: seq<T>, kindOf: T -> SubSessionType, elapsedOf: T -> int)
    ensures (forall k :: 0 <= k < |items| ==> elapsedOf(items[k]) >= 0) ==>
              TimeOf(items, kindOf, elapsedOf, false) >= 0
    ensures (forall k :: 0 <= k < |items| ==> kindOf(items[k]) == Work) ==>
              TimeOf(items, kindOf, elapsedOf, false) == 0
  {
    if items != [] {
      BreakTimeBounds(items[..|items| - 1], kindOf, elapsedOf);
    }
  }

  /** The modal's break time: 0 until the list has loaded. */
  function ModalBreakTime(data: Option<seq<SubSessionRow>>): int {
    if data.None? then 0
    else BreakTime(data.value, (r: SubSessionRow) => r.kind, (r: SubSessionRow) => r.durationElapsed)
  }

  /** The screen's break time over the timer's local records. */
  function ScreenBreakTime(records: seq<SegmentRecord>): int {
    BreakTime(records, (r: SegmentRecord) => r.kind, (r: SegmentRecord) => r.durationElapsed)
  }

  /** Work time plus break time is the `total_time_elapsed` the batch path of
      `changeStatus` stores for the same records. */
  lemma {:induction false} BreakAndWorkMakeTotal(records: seq<SegmentRecord>)
    ensures ScreenBreakTime(records)
          + TimeOf(records, (r: SegmentRecord) => r.kind, (r: SegmentRecord) => r.durationElapsed, true)
         == SumElapsed(records)
  {
    if records != [] {
      BreakAndWorkMakeTotal(records[..|records| - 1]);
    }
  }

  /** Grouping does not change the break time: summing cycle by cycle gives
      the same total as summing the whole list. */
  lemma {:induction false} TimeOfAppend<T>(a: seq<T>, b: seq<T>, kindOf: T -> SubSessionType,
                                          elapsedOf: T -> int, work: bool)
    ensures TimeOf(a + b, kindOf, elapsedOf, work)
         == TimeOf(a, kindOf, elapsedOf, work) + TimeOf(b, kindOf, elapsedOf, work)
  {
    if b == [] {
      assert a + b == a;
    } else {
      assert (a + b)[..|a + b| - 1] == a + b[..|b| - 1];
      TimeOfAppend(a, b[..|b| - 1], kindOf, elapsedOf, work);
    }
  }

  function CycleBreakTimes<T>(cs: seq<Cycle<T>>, kindOf: T -> SubSessionType, elapsedOf: T -> int): int {
    if cs == [] then 0
    else CycleBreakTimes(cs[..|cs| - 1], kindOf, elapsedOf) + BreakTime(cs[|cs| - 1].subSessions, kindOf, elapsedOf)
  }

  lemma {:induction false} CycleBreakTimesSum<T>(cs: seq<Cycle<T>>, kindOf: T -> SubSessionType,
                                                elapsedOf: T -> int)
    ensures CycleBreakTimes(cs, kindOf, elapsedOf) == BreakTime(Flatten(cs), kindOf, elapsedOf)
  {
    if cs != [] {
      CycleBreakTimesSum(cs[..|cs| - 1], kindOf, elapsedOf);
      TimeOfAppend(Flatten(cs[..|cs| - 1]), cs[|cs| - 1].subSessions, kindOf, elapsedOf, false);
    }
  }
}
