/** The incremental timer (`client/src/pages/TimePage/providers/PomodoroProvider.tsx`):
    it starts from the session's open sub-session and, on every transition,
    asks the server to complete that sub-session and open the next one before
    it moves its own state on. The interval becomes an explicit `Tick`. */
module LiveTimer {
  import opened Common
  import opened Schema
  import opened Store
  import opened Transition
  import opened Settings
  import opened CurrentSession

  /** The provider's `TimerState`. */
  datatype LiveState = LiveState(
    timeLeft: int,
    isRunning: bool,
    subSessionType: SubSessionType,
    pomodoroCount: nat,
    sessionKey: nat)

  /** The state the provider mounts with: the open sub-session's type with
      what is left of it, the session's view count, paused. */
  function InitialLiveState(session: AggregatedRow, sub: SubSessionRow): (r: LiveState)
    ensures !r.isRunning && r.sessionKey == 0
    ensures r.subSessionType == sub.kind && r.pomodoroCount == session.pomodoroCount
    ensures r.timeLeft + sub.durationElapsed == FullSeconds(session.config, sub.kind)
  {
    LiveState(FullSeconds(session.config, sub.kind) - sub.durationElapsed, false, sub.kind,
              session.pomodoroCount, 0)
  }

  /** The `durationElapsed` sent to `completeAndStartNew`: the whole segment
      if it ran out, otherwise what has been used of it. */
  function ElapsedSent(c: SessionConfig, t: SubSessionType, timeLeft: int, finished: bool): (r: int)
    ensures finished ==> r == FullSeconds(c, t)
    ensures !finished ==> r + timeLeft == FullSeconds(c, t)
    ensures PositiveConfig(c) && 0 <= timeLeft <= FullSeconds(c, t) ==> 0 <= r <= FullSeconds(c, t)
  {
    if finished then FullSeconds(c, t) else FullSeconds(c, t) - timeLeft
  }

  /** The state once the server has answered: the next type by the shared
      rule, at its full duration. */
  function Advanced(st: LiveState, c: SessionConfig, autoStart: bool): (r: LiveState)
    ensures r.timeLeft == FullSeconds(c, r.subSessionType)
    ensures r.isRunning == autoStart && r.sessionKey == st.sessionKey + 1
    ensures (r.subSessionType == Work) <==> (st.subSessionType != Work)
    ensures r.pomodoroCount == st.pomodoroCount + (if st.subSessionType == Work then 1 else 0)
    ensures r.subSessionType == LongBreak <==>
              st.subSessionType == Work && MultipleOf(r.pomodoroCount, c.sessionUntilLongBreak)
  {
    var next := Next(st.subSessionType, st.pomodoroCount, c.sessionUntilLongBreak);
    LiveState(FullSeconds(c, next.0), autoStart, next.0, next.1, st.sessionKey + 1)
  }

  /** The timer agrees with the store: the session exists and has exactly one
      open sub-session, of the timer's type, and the view's count (completed
      work sub-sessions) is the timer's count. */
  ghost predicate Synced(sessions: seq<SessionRow>, subs: seq<SubSessionRow>, sessionId: nat,
                         t: SubSessionType, count: nat)
  {
    && sessionId in SessionIds(sessions)
    && Newest(subs, sessionId, true).Some?
    && OpenPositions(subs, sessionId) == {Newest(subs, sessionId, true).value}
    && subs[Newest(subs, sessionId, true).value].kind == t
    && |Joined(subs, sessionId)| == count
  }

  /** `completeAndStartNew` with the type the timer computes keeps the timer
      and the store in step: completing the open sub-session adds one to the
      view count exactly when it was work, and the new row is the only open
      one, of the next type. */
  lemma SyncedAfterComplete(sessions: seq<SessionRow>, subs: seq<SubSessionRow>, sessionId: nat,
                            t: SubSessionType, count: nat, n: int, elapsed: int, row: SubSessionRow)
    requires Synced(sessions, subs, sessionId, t, count)
    requires row.session == sessionId && !row.isCompleted && row.kind == Next(t, count, n).0
    ensures var k := Newest(subs, sessionId, true).value;
      Synced(sessions, subs[k := subs[k].(durationElapsed := elapsed, isCompleted := true)] + [row],
             sessionId, Next(t, count, n).0, Next(t, count, n).1)
  {
    var k := Newest(subs, sessionId, true).value;
    var mid := subs[k := subs[k].(durationElapsed := elapsed, isCompleted := true)];
    var after := mid + [row];
    OneOpenAfterCompleteAndStartNew(subs, sessionId, k, elapsed, row);
    assert Matches(after[|subs|], sessionId, true);
    var m := Newest(after, sessionId, true);
    assert m.Some? && m.value in OpenPositions(after, sessionId);
    JoinedUpdate(subs, k, mid[k], sessionId);
    JoinedAppend(mid, [row], sessionId);
    assert Joined([row], sessionId) == [] by {
      assert [row][..0] == [];
    }
  }

  /** Mounting on the session's newest open sub-session, when it is the only
      open one, starts the timer in step with the store: the view row gives
      the count and the open row the type. */
  lemma SyncedAtMount(sessions: seq<SessionRow>, subs: seq<SubSessionRow>, k: nat)
    requires k < |sessions|
    requires Newest(subs, sessions[k].id, true).Some?
    requires OpenPositions(subs, sessions[k].id) == {Newest(subs, sessions[k].id, true).value}
    ensures var st := InitialLiveState(View(sessions, subs)[k],
                                       subs[Newest(subs, sessions[k].id, true).value]);
      Synced(sessions, subs, sessions[k].id, st.subSessionType, st.pomodoroCount)
  {
    assert sessions[k] in sessions;
  }

  class Timer {
    const session: AggregatedRow
    var timeLeft: int
    var isRunning: bool
    var subSessionType: SubSessionType
    var pomodoroCount: nat
    var sessionKey: nat

    function State(): LiveState
      reads this
    {
      LiveState(timeLeft, isRunning, subSessionType, pomodoroCount, sessionKey)
    }

    /** What is left of the current segment lies within it. */
    ghost predicate TimeInRange()
      reads this
    {
      0 <= timeLeft <= FullSeconds(session.config, subSessionType)
    }

    /** Mounting on the session's open sub-session `sub`. */
    constructor (session: AggregatedRow, sub: SubSessionRow)
      ensures this.session == session
      ensures State() == InitialLiveState(session, sub)
      ensures 0 <= sub.durationElapsed <= FullSeconds(session.config, sub.kind) ==> TimeInRange()
    {
      this.session := session;
      var st := InitialLiveState(session, sub);
      timeLeft, isRunning, subSessionType := st.timeLeft, st.isRunning, st.subSessionType;
      pomodoroCount, sessionKey := st.pomodoroCount, st.sessionKey;
    }

    /** `start`: a no-op while running; otherwise only `isRunning` changes. */
    method Start()
      modifies this
      ensures State() == old(State()).(isRunning := true)
    {
      if isRunning {
        return;
      }
      isRunning := true;
    }

    /** `pause`: only `isRunning` changes. */
    method Pause()
      modifies this
      ensures State() == old(State()).(isRunning := false)
    {
      isRunning := false;
    }

    /** `reset`: a no-op while running; otherwise the current segment starts over. */
    method Reset()
      modifies this
      ensures old(isRunning) ==> State() == old(State())
      ensures !old(isRunning) ==>
                State() == old(State()).(timeLeft := FullSeconds(session.config, subSessionType))
      ensures PositiveConfig(session.config) && old(TimeInRange()) ==> TimeInRange()
    {
      if isRunning {
        return;
      }
      timeLeft := FullSeconds(session.config, subSessionType);
    }

    /** `nextSession`: the server completes the open sub-session and opens
        one of the next type; only when it succeeds does the provider adopt
        the new row and the timer move on. A rejected call changes nothing. */
    method NextSession(store: RecordStore, provider: Provider, autoStart: bool, finished: bool,
                       now: string) returns (r: Result<SubSessionRow>)
      requires store.Valid()
      modifies this, store, provider
      ensures store.Valid()
      ensures r.Err? ==> State() == old(State()) && unchanged(store, provider)
      ensures r.Ok? <==> session.id in SessionIds(old(store.sessions)) &&
                         OpenPositions(old(store.subSessions), session.id) != {}
      ensures r.Ok? ==>
                var k := Newest(old(store.subSessions), session.id, true).value;
                && State() == Advanced(old(State()), session.config, autoStart)
                && r.value == SubSessionRow(old(store.nextId), session.id, subSessionType, 0, false, Some(now))
                && store.sessions == old(store.sessions)
                && store.subSessions == old(store.subSessions)[k := old(store.subSessions)[k].(
                     durationElapsed := ElapsedSent(session.config, old(subSessionType), old(timeLeft), finished),
                     isCompleted := true)] + [r.value]
                && provider.subSession == Some(r.value)
      ensures Synced(old(store.sessions), old(store.subSessions), session.id, old(subSessionType),
                     old(pomodoroCount)) ==>
                r.Ok? && Synced(store.sessions, store.subSessions, session.id, subSessionType, pomodoroCount)
      ensures PositiveConfig(session.config) && r.Ok? ==> TimeInRange()
    {
      var next := Next(subSessionType, pomodoroCount, session.config.sessionUntilLongBreak);
      var elapsed := ElapsedSent(session.config, subSessionType, timeLeft, finished);
      ghost var subs0 := store.subSessions;
      r := store.CompleteAndStartNew(session.id, elapsed, now, next.0);
      if r.Err? {
        return;
      }
      if Synced(store.sessions, subs0, session.id, subSessionType, pomodoroCount) {
        SyncedAfterComplete(store.sessions, subs0, session.id, subSessionType, pomodoroCount,
                            session.config.sessionUntilLongBreak, elapsed, r.value);
      }
      provider.SetSubSession(r.value);
      var st := Advanced(State(), session.config, autoStart);
      timeLeft, isRunning, subSessionType := st.timeLeft, st.isRunning, st.subSessionType;
      pomodoroCount, sessionKey := st.pomodoroCount, st.sessionKey;
    }

    /** `skip`: a no-op while running, at zero, or during work; otherwise the
        break is left unfinished, auto-starting work per the settings. */
    method Skip(store: RecordStore, provider: Provider, settings: SettingsFields, now: string)
      returns (r: Option<Result<SubSessionRow>>)
      requires store.Valid()
      modifies this, store, provider
      ensures store.Valid()
      ensures r.None? <==> old(isRunning) || old(timeLeft) == 0 || old(subSessionType) == Work
      ensures r.None? ==> State() == old(State()) && unchanged(store, provider)
      ensures r.Some? && r.value.Err? ==> State() == old(State()) && unchanged(store, provider)
      ensures r.Some? ==> (r.value.Ok? <==> session.id in SessionIds(old(store.sessions)) &&
                                            OpenPositions(old(store.subSessions), session.id) != {})
      ensures r.Some? && r.value.Ok? ==>
                && State() == Advanced(old(State()), session.config, settings.autoStartWork)
                && subSessionType == Work && pomodoroCount == old(pomodoroCount)
      ensures r.Some? && r.value.Ok? ==>
                var k := Newest(old(store.subSessions), session.id, true).value;
                && store.sessions == old(store.sessions)
                && store.subSessions == old(store.subSessions)[k := old(store.subSessions)[k].(
                     durationElapsed := ElapsedSent(session.config, old(subSessionType), old(timeLeft), false),
                     isCompleted := true)] + [r.value.value]
                && provider.subSession == Some(r.value.value)
      ensures Synced(old(store.sessions), old(store.subSessions), session.id, old(subSessionType),
                     old(pomodoroCount)) ==>
                Synced(store.sessions, store.subSessions, session.id, subSessionType, pomodoroCount)
    {
      if isRunning || timeLeft == 0 || subSessionType == Work {
        return None;
      }
      isRunning := false;
      var answer := NextSession(store, provider, settings.autoStartWork, false, now);
      r := Some(answer);
    }

    /** One interval callback (every second while running): count down, or at
        zero move on as a finished segment with the auto-start setting for
        the kind that follows. */
    method Tick(store: RecordStore, provider: Provider, settings: SettingsFields, now: string)
      returns (r: Option<Result<SubSessionRow>>)
      requires store.Valid()
      modifies this, store, provider
      ensures store.Valid()
      ensures r.Some? <==> old(isRunning) && old(timeLeft) == 0
      ensures r.None? ==> unchanged(store, provider)
      ensures r.None? ==> State() == if old(isRunning) then old(State()).(timeLeft := old(timeLeft) - 1)
                                     else old(State())
      ensures r.Some? && r.value.Err? ==> State() == old(State()) && unchanged(store, provider)
      ensures r.Some? ==> (r.value.Ok? <==> session.id in SessionIds(old(store.sessions)) &&
                                            OpenPositions(old(store.subSessions), session.id) != {})
      ensures r.Some? && r.value.Ok? ==>
                State() == Advanced(old(State()), session.config,
                                    if old(subSessionType) == Work then settings.autoStartBreak
                                    else settings.autoStartWork)
      ensures r.Some? && r.value.Ok? ==>
                var k := Newest(old(store.subSessions), session.id, true).value;
                && store.sessions == old(store.sessions)
                && store.subSessions == old(store.subSessions)[k := old(store.subSessions)[k].(
                     durationElapsed := ElapsedSent(session.config, old(subSessionType), old(timeLeft), true),
                     isCompleted := true)] + [r.value.value]
                && provider.subSession == Some(r.value.value)
      ensures Synced(old(store.sessions), old(store.subSessions), session.id, old(subSessionType),
                     old(pomodoroCount)) ==>
                Synced(store.sessions, store.subSessions, session.id, subSessionType, pomodoroCount)
      ensures PositiveConfig(session.config) && old(TimeInRange()) ==> TimeInRange()
    {
      if !isRunning {
        return None;
      }
      if timeLeft == 0 {
        var autoStart := if subSessionType == Work then settings.autoStartBreak else settings.autoStartWork;
        var answer := NextSession(store, provider, autoStart, true, now);
        return Some(answer);
      }
      timeLeft := timeLeft - 1;
      r := None;
    }
  }
}
