/** The browser-side snapshot of the offline timer: one record under the fixed
    key `pomodoro_timer_state`, read back only if it parses. */
module LocalStorage {
  import opened Common

  /** The persisted timer snapshot, tagged with the session it belongs to. */
  datatype LocalTimerState = LocalTimerState(
    sessionId: nat,
    timeLeft: int,
    isRunning: bool,
    subSessionType: SubSessionType,
    pomodoroCount: nat,
    subSessions: seq<SegmentRecord>,
    currentSubSessionStarted: string,
    sessionKey: nat)

  /** `initializeLocalTimerState`: the snapshot of a session that has not
      started timing yet: a full, paused work segment with nothing recorded.
      `now` is the ISO clock reading the source takes. */
  function InitializeLocalTimerState(sessionId: nat, config: SessionConfig, pomodoroCount: nat,
                                     now: string): (r: LocalTimerState)
    ensures r.sessionId == sessionId && r.pomodoroCount == pomodoroCount
    ensures r.subSessionType == Work && r.timeLeft == FullSeconds(config, r.subSessionType)
    ensures !r.isRunning && r.subSessions == [] && r.sessionKey == 0
    ensures PositiveConfig(config) ==> r.timeLeft >= 60
  {
    LocalTimerState(sessionId, config.workDuration * 60, false, Work, pomodoroCount, [], now, 0)
  }

  /** What the slot holds: nothing, a snapshot, or text that does not parse. */
  datatype Stored = Nothing | Holding(state: LocalTimerState) | Unreadable

  /** The single storage slot. Whether a write or a removal succeeds is up to
      the browser, so it is an input (`ok`); a failure is swallowed and leaves
      the slot as it was. */
  class Slot {
    var content: Stored

    constructor ()
      ensures content == Nothing
    {
      content := Nothing;
    }

    /** `getLocalTimerState`: the snapshot, or None when the slot is empty or
        its text does not parse. */
    function Get(): (r: Option<LocalTimerState>)
      reads this
      ensures r.Some? <==> content.Holding?
      ensures r.Some? ==> r.value == content.state
    {
      if content.Holding? then Some(content.state) else None
    }

    /** `saveLocalTimerState`: replaces whatever the slot held, whichever
        session it belonged to. */
    method Save(s: LocalTimerState, ok: bool)
      modifies this
      ensures content == if ok then Holding(s) else old(content)
    {
      if ok {
        content := Holding(s);
      }
    }

    /** `clearLocalTimerState`. */
    method Clear(ok: bool)
      modifies this
      ensures content == if ok then Nothing else old(content)
    {
      if ok {
        content := Nothing;
      }
    }
  }

  /** A successful save is read back exactly, and a successful clear leaves
      nothing to read. */
  method SaveGetClear(slot: Slot, s: LocalTimerState) returns (afterSave: Option<LocalTimerState>,
                                                                afterClear: Option<LocalTimerState>)
    modifies slot
    ensures afterSave == Some(s)
    ensures afterClear == None
    ensures slot.content == Nothing
  {
    slot.Save(s, true);
    afterSave := slot.Get();
    slot.Clear(true);
    afterClear := slot.Get();
  }
}
