/** The offline timer (`client/src/providers/PomodoroProvider.tsx`): it keeps
    every finished segment in a local list, snapshots itself to the storage
    slot, and sends the whole list to `changeStatus` once, when the session
    ends. The periodic interval becomes an explicit `Tick`; clock readings are
    `now` inputs. */
module BatchTimer {
  import opened Common
  import opened Schema
  import opened Store
  import opened Transition
  import opened Settings
  import opened LocalStorage

  /** The provider's `TimerState`. */
  datatype TimerState = TimerState(
    timeLeft: int,
    isRunning: bool,
    subSessionType: SubSessionType,
    pomodoroCount: nat,
    sessionKey: nat,
    subSessions: seq<SegmentRecord>,
    currentSubSessionStarted: string)

  /** `getInitialState`: zeros without a session; the stored snapshot, paused,
      when it belongs to this session; otherwise a fresh work segment. */
  function InitialState(session: Option<AggregatedRow>, stored: Option<LocalTimerState>,
                        now: string): (r: TimerState)
    ensures !r.isRunning
    ensures session.None? ==> r.timeLeft == 0 && r.subSessionType == Work && r.subSessions == []
                              && r.pomodoroCount == 0 && r.sessionKey == 0
    ensures session.Some? && (stored.None? || stored.value.sessionId != session.value.id) ==>
              && r.subSessionType == Work
              && r.timeLeft == FullSeconds(session.value.config, Work)
              && r.pomodoroCount == session.value.pomodoroCount
              && r.subSessions == [] && r.sessionKey == 0
  {
    if session.None? then TimerState(0, false, Work, 0, 0, [], now)
    else if stored.Some? && stored.value.sessionId == session.value.id then
      var s := stored.value;
      TimerState(s.timeLeft, false, s.subSessionType, s.pomodoroCount, s.sessionKey,
                 s.subSessions, s.currentSubSessionStarted)
    else
      var s := InitializeLocalTimerState(session.value.id, session.value.config,
                                         session.value.pomodoroCount, now);
      TimerState(s.timeLeft, false, s.subSessionType, s.pomodoroCount, s.sessionKey,
                 s.subSessions, s.currentSubSessionStarted)
  }

  /** The persist effect: the state tagged with the session id. */
  function Snapshot(sessionId: nat, st: TimerState): LocalTimerState {
    LocalTimerState(sessionId, st.timeLeft, st.isRunning, st.subSessionType, st.pomodoroCount,
                    st.subSessions, st.currentSubSessionStarted, st.sessionKey)
  }

  /** Restoring this session's snapshot gives back the state it was taken
      from, paused. */
  lemma RestoreSnapshot(s: AggregatedRow, st: TimerState, now: string)
    ensures InitialState(Some(s), Some(Snapshot(s.id, st)), now) == st.(isRunning := false)
  {
  }

  /** A snapshot of another session is ignored. */
  lemma ForeignSnapshotIgnored(s: AggregatedRow, stored: LocalTimerState, now: string)
    requires stored.sessionId != s.id
    ensures InitialState(Some(s), Some(stored), now) == InitialState(Some(s), None, now)
  {
  }

  /** `nextSubSession` for a present session: record the segment being left,
      then move to the next type with its full duration. */
  function Transitioned(st: TimerState, c: SessionConfig, autoStart: bool, finished: bool,
                        now: string): (r: TimerState)
    ensures |r.subSessions| == |st.subSessions| + 1 && r.subSessions[..|st.subSessions|] == st.subSessions
    ensures var rec := r.subSessions[|st.subSessions|];
      && rec.kind == st.subSessionType && rec.isCompleted == finished
      && rec.durationElapsed + (if finished then 0 else st.timeLeft) == FullSeconds(c, st.subSessionType)
    ensures r.timeLeft == FullSeconds(c, r.subSessionType)
    ensures r.isRunning == autoStart && r.sessionKey == st.sessionKey + 1
    ensures (r.subSessionType == Work) <==> (st.subSessionType != Work)
    ensures r.pomodoroCount == st.pomodoroCount + (if st.subSessionType == Work then 1 else 0)
    ensures r.subSessionType == LongBreak <==>
              st.subSessionType == Work && MultipleOf(r.pomodoroCount, c.sessionUntilLongBreak)
  {
    var full := FullSeconds(c, st.subSessionType);
    var rec := SegmentRecord(st.subSessionType, if finished then full else full - st.timeLeft,
                             now, finished);
    var next := Next(st.subSessionType, st.pomodoroCount, c.sessionUntilLongBreak);
    TimerState(FullSeconds(c, next.0), autoStart, next.0, next.1, st.sessionKey + 1,
               st.subSessions + [rec], now)
  }

  /** One interval callback while running: count down, or at zero move on as
      a finished segment, auto-starting per the settings for the next kind. */
  function Ticked(st: TimerState, config: Option<SessionConfig>, settings: SettingsFields,
                  now: string): (r: TimerState)
    ensures !st.isRunning ==> r == st
    ensures st.isRunning && st.timeLeft != 0 ==> r == st.(timeLeft := st.timeLeft - 1)
    ensures st.isRunning && st.timeLeft == 0 && config.Some? ==>
              && |r.subSessions| == |st.subSessions| + 1
              && r.subSessions[|st.subSessions|].isCompleted
              && r.isRunning == (if st.subSessionType == Work then settings.autoStartBreak
                                 else settings.autoStartWork)
    ensures st.isRunning && st.timeLeft == 0 && config.Some? ==>
              r == Transitioned(st, config.value,
                                if st.subSessionType == Work then settings.autoStartBreak
                                else settings.autoStartWork,
                                true, now)
    ensures st.isRunning && st.timeLeft == 0 && config.None? ==> r == st
  {
    if !st.isRunning then st
    else if st.timeLeft == 0 then
      if config.None? then st
      else
        Transitioned(st, config.value,
                     if st.subSessionType == Work then settings.autoStartBreak else settings.autoStartWork,
                     true, now)
    else st.(timeLeft := st.timeLeft - 1)
  }

  /** Whether `skip` leaves the state alone. */
  predicate SkipRefused(st: TimerState) {
    st.isRunning || st.timeLeft == 0 || st.subSessionType == Work
  }

  /** `skip`: leave a paused break early, as an unfinished segment, going back
      to work with the count unchanged. */
  function Skipped(st: TimerState, config: Option<SessionConfig>, settings: SettingsFields,
                   now: string): (r: TimerState)
    ensures SkipRefused(st) || config.None? ==> r == st
    ensures !SkipRefused(st) && config.Some? ==>
              && r.subSessionType == Work && r.pomodoroCount == st.pomodoroCount
              && r.isRunning == settings.autoStartWork
              && |r.subSessions| == |st.subSessions| + 1
              && !r.subSessions[|st.subSessions|].isCompleted
    ensures !SkipRefused(st) && config.Some? ==>
              r == Transitioned(st, config.value, settings.autoStartWork, false, now)
  {
    if SkipRefused(st) || config.None? then st
    else Transitioned(st, config.value, settings.autoStartWork, false, now)
  }

  /** The records `endSession` sends: everything recorded, plus the current
      segment as unfinished with what has elapsed of it. */
  function FinalRecords(st: TimerState, c: SessionConfig, now: string): (r: seq<SegmentRecord>)
    ensures |r| == |st.subSessions| + 1 && r[..|st.subSessions|] == st.subSessions
    ensures CompletedWork(r) == CompletedWork(st.subSessions)
    ensures r[|st.subSessions|].durationElapsed + st.timeLeft == FullSeconds(c, st.subSessionType)
    ensures r[|st.subSessions|].kind == st.subSessionType && !r[|st.subSessions|].isCompleted
    ensures r[|st.subSessions|].ended == now
  {
    var r := st.subSessions + [SegmentRecord(st.subSessionType,
                                             FullSeconds(c, st.subSessionType) - st.timeLeft,
                                             now, false)];
    assert r[..|r| - 1] == st.subSessions;
    r
  }

  /** What holds of every state the timer reaches from a fresh start on a
      session whose view count was `base`: time left within the segment,
      every recorded elapsed time within its segment, work recorded only
      when it ran to the end, the count equal to `base` plus the recorded
      work, and the current type agreeing with the last record and the
      transition rule. */
  ghost predicate Inv(st: TimerState, c: SessionConfig, base: nat) {
    && 0 <= st.timeLeft <= FullSeconds(c, st.subSessionType)
    && (forall i :: 0 <= i < |st.subSessions| ==>
          0 <= st.subSessions[i].durationElapsed <= FullSeconds(c, st.subSessions[i].kind))
    && (forall i :: 0 <= i < |st.subSessions| && st.subSessions[i].kind == Work ==>
          st.subSessions[i].isCompleted)
    && st.pomodoroCount == base + CompletedWork(st.subSessions)
    && (st.subSessionType != Work ==>
          st.subSessions != [] && st.subSessions[|st.subSessions| - 1].kind == Work)
    && (st.subSessionType == LongBreak ==> MultipleOf(st.pomodoroCount, c.sessionUntilLongBreak))
  }

  /** A fresh start satisfies the invariant with the session's view count. */
  lemma FreshStateInv(s: AggregatedRow, now: string)
    requires PositiveConfig(s.config)
    ensures Inv(InitialState(Some(s), None, now), s.config, s.pomodoroCount)
  {
  }

  lemma CompletedWorkSnoc(xs: seq<SegmentRecord>, x: SegmentRecord)
    ensures CompletedWork(xs + [x]) == CompletedWork(xs) + (if x.kind == Work && x.isCompleted then 1 else 0)
  {
    assert (xs + [x])[..|xs|] == xs;
  }

  /** A transition keeps the invariant whenever work is left only as
      finished, which is how `Tick` and `Skip` call it. */
  lemma TransitionKeepsInv(st: TimerState, c: SessionConfig, base: nat, autoStart: bool,
                           finished: bool, now: string)
    requires PositiveConfig(c) && Inv(st, c, base)
    requires st.subSessionType == Work ==> finished
    ensures Inv(Transitioned(st, c, autoStart, finished, now), c, base)
  {
    var r := Transitioned(st, c, autoStart, finished, now);
    var rec := r.subSessions[|st.subSessions|];
    assert r.subSessions == st.subSessions + [rec];
    CompletedWorkSnoc(st.subSessions, rec);
  }

  /** Every tick keeps the invariant. */
  lemma TickKeepsInv(st: TimerState, c: SessionConfig, base: nat, settings: SettingsFields,
                     now: string)
    requires PositiveConfig(c) && Inv(st, c, base)
    ensures Inv(Ticked(st, Some(c), settings, now), c, base)
  {
    if st.isRunning && st.timeLeft == 0 {
      TransitionKeepsInv(st, c, base,
                         if st.subSessionType == Work then settings.autoStartBreak else settings.autoStartWork,
                         true, now);
    }
  }

  /** Every skip keeps the invariant. */
  lemma SkipKeepsInv(st: TimerState, c: SessionConfig, base: nat, settings: SettingsFields,
                     now: string)
    requires PositiveConfig(c) && Inv(st, c, base)
    ensures Inv(Skipped(st, Some(c), settings, now), c, base)
  {
    if !SkipRefused(st) {
      TransitionKeepsInv(st, c, base, settings.autoStartWork, false, now);
    }
  }

  /** The records sent at the end have every elapsed time within its segment. */
  lemma FinalRecordsBounded(st: TimerState, c: SessionConfig, base: nat, now: string)
    requires Inv(st, c, base)
    ensures var r := FinalRecords(st, c, now);
      forall i :: 0 <= i < |r| ==> 0 <= r[i].durationElapsed <= FullSeconds(c, r[i].kind)
  {
    var r := FinalRecords(st, c, now);
    forall i | 0 <= i < |r| ensures 0 <= r[i].durationElapsed <= FullSeconds(c, r[i].kind) {
      if i < |st.subSessions| {
        assert r[i] == st.subSessions[i];
      }
    }
  }

  /** Ending a session reached from a fresh start: once the server has stored
      the batch, the count callers read back from the view equals the
      `pomodoroCount` the timer sent, provided nothing else was recorded for
      the session meanwhile. */
  lemma EndSessionCountAgrees(st: TimerState, c: SessionConfig, s: SessionRow,
                              subs: seq<SubSessionRow>, firstId: nat, now: string)
    requires Inv(st, c, Aggregate(s, subs).pomodoroCount)
    ensures Aggregate(s.(status := Completed,
                         totalTimeElapsed := Some(SumElapsed(FinalRecords(st, c, now))),
                         pomodoroCount := Some(st.pomodoroCount)),
                      subs + BatchRows(FinalRecords(st, c, now), s.id, firstId)).pomodoroCount
         == st.pomodoroCount
  {
    BatchCountReadBack(s, subs, FinalRecords(st, c, now), firstId, Some(st.pomodoroCount));
  }

  /** The provider: the session it was mounted for is fixed, the timer fields
      change. */
  class Timer {
    const session: Option<AggregatedRow>
    var timeLeft: int
    var isRunning: bool
    var subSessionType: SubSessionType
    var pomodoroCount: nat
    var sessionKey: nat
    var subSessions: seq<SegmentRecord>
    var currentSubSessionStarted: string

    function State(): TimerState
      reads this
    {
      TimerState(timeLeft, isRunning, subSessionType, pomodoroCount, sessionKey, subSessions,
                 currentSubSessionStarted)
    }

    function Config(): Option<SessionConfig> {
      if session.None? then None else Some(session.value.config)
    }

    /** Mounting: the state `getInitialState` derives from the slot. */
    constructor (session: Option<AggregatedRow>, slot: Slot, now: string)
      ensures this.session == session
      ensures State() == InitialState(session, slot.Get(), now)
    {
      this.session := session;
      var st := InitialState(session, slot.Get(), now);
      timeLeft, isRunning, subSessionType := st.timeLeft, st.isRunning, st.subSessionType;
      pomodoroCount, sessionKey := st.pomodoroCount, st.sessionKey;
      subSessions, currentSubSessionStarted := st.subSessions, st.currentSubSessionStarted;
    }

    method SetState(st: TimerState)
      modifies this
      ensures State() == st
    {
      timeLeft, isRunning, subSessionType := st.timeLeft, st.isRunning, st.subSessionType;
      pomodoroCount, sessionKey := st.pomodoroCount, st.sessionKey;
      subSessions, currentSubSessionStarted := st.subSessions, st.currentSubSessionStarted;
    }

    /** The persist effect, run after every state change while a session is
        present. */
    method Persist(slot: Slot, ok: bool)
      modifies slot
      ensures slot.content == if session.Some? && ok then Holding(Snapshot(session.value.id, State()))
                              else old(slot.content)
    {
      if session.None? {
        return;
      }
      slot.Save(Snapshot(session.value.id, State()), ok);
    }

    /** `start`: a no-op while running; otherwise only `isRunning` changes. */
    method Start()
      modifies this
      ensures State() == old(State()).(isRunning := true)
    {
      if isRunning {
        return;
      }
      isRunning := true;
    }

    /** `pause`: only `isRunning` changes. */
    method Pause()
      modifies this
      ensures State() == old(State()).(isRunning := false)
    {
      isRunning := false;
    }

    /** `reset`: a no-op while running or without a session; otherwise the
        current segment starts over. */
    method Reset()
      modifies this
      ensures old(isRunning) || session.None? ==> State() == old(State())
      ensures !old(isRunning) && session.Some? ==>
                State() == old(State()).(timeLeft := FullSeconds(session.value.config, subSessionType))
    {
      if isRunning || session.None? {
        return;
      }
      timeLeft := FullSeconds(session.value.config, subSessionType);
    }

    /** `skip`. */
    method Skip(settings: SettingsFields, now: string)
      modifies this
      ensures State() == Skipped(old(State()), Config(), settings, now)
    {
      if isRunning || timeLeft == 0 || subSessionType == Work {
        return;
      }
      isRunning := false;
      if session.None? {
        return;
      }
      SetState(Transitioned(State(), session.value.config, settings.autoStartWork, false, now));
    }

    /** One interval callback; `settings` is the current settings record. */
    method Tick(settings: SettingsFields, now: string)
      modifies this
      ensures State() == Ticked(old(State()), Config(), settings, now)
    {
      if !isRunning {
        return;
      }
      if timeLeft == 0 {
        if session.None? {
          return;
        }
        var autoStart := if subSessionType == Work then settings.autoStartBreak else settings.autoStartWork;
        SetState(Transitioned(State(), session.value.config, autoStart, true, now));
        return;
      }
      timeLeft := timeLeft - 1;
    }

    /** `endSession`: sends the final records and the current count through
        the batch path of `changeStatus`, then clears the slot. A rejected
        request leaves the slot as it was, since the clear is never reached.
        The timer's own state does not change. */
    method EndSession(store: RecordStore, slot: Slot, clearOk: bool, now: string)
      returns (r: Option<Result<AggregatedRow>>)
      requires store.Valid()
      modifies store, slot
      ensures store.Valid()
      ensures session.None? ==> r == None && unchanged(store, slot)
      ensures session.Some? ==>
                var id := session.value.id;
                var final := FinalRecords(State(), session.value.config, now);
                && r.Some?
                && (FindSession(old(store.sessions), id).None? ==>
                      r.value == Err(NotFound) && unchanged(store, slot))
                && (FindSession(old(store.sessions), id).Some? ==>
                      var k := FindSession(old(store.sessions), id).value;
                      && store.subSessions == old(store.subSessions) + BatchRows(final, id, old(store.nextId))
                      && store.sessions == old(store.sessions)[k := old(store.sessions)[k].(
                           status := Completed,
                           totalTimeElapsed := Some(SumElapsed(final)),
                           pomodoroCount := Some(pomodoroCount))]
                      && r.value == Ok(View(store.sessions, store.subSessions)[k])
                      && slot.content == if clearOk then Nothing else old(slot.content))
    {
      if session.None? {
        return None;
      }
      var final := FinalRecords(State(), session.value.config, now);
      var sent := store.ChangeStatus(session.value.id, Completed, Some(final), Some(pomodoroCount));
      r := Some(sent);
      if sent.Err? {
        return;
      }
      slot.Clear(clearOk);
    }
  }
}
