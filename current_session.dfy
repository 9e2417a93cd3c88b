/** The TimePage session provider: it loads the session and its open
    sub-session, creates one on first load when none is open (choosing the
    type that resumes the cycle), forwards status changes, and picks the
    screen to show. */
module CurrentSession {
  import opened Common
  import opened Schema
  import opened Store
  import opened Transition

  /** The type of the sub-session created when a session is resumed with
      nothing open: after work, the break the transition rule would have
      chosen for the current count; after anything else, work. */
  function ResumeType(lastType: SubSessionType, pomodoroCount: nat, n: int): (r: SubSessionType)
    ensures (r == Work) <==> (lastType != Work)
    ensures r == LongBreak <==> lastType == Work && MultipleOf(pomodoroCount, n)
  {
    if lastType == Work then (if MultipleOf(pomodoroCount, n) then LongBreak else ShortBreak)
    else Work
  }

  /** Resuming agrees with the transition the timer would have taken: after
      work that brought the count to `count`, and after any break. */
  lemma ResumeAgreesWithNext(lastType: SubSessionType, count: nat, n: int)
    ensures lastType == Work && count >= 1 ==> ResumeType(Work, count, n) == Next(Work, count - 1, n).0
    ensures lastType != Work ==> ResumeType(lastType, count, n) == Next(lastType, count, n).0
  {
  }

  /** A session with no sub-sessions reports 'short_break' as its last type,
      so resuming it starts with work. */
  lemma FreshSessionStartsWithWork(sessions: seq<SessionRow>, subs: seq<SubSessionRow>, id: nat)
    requires id in SessionIds(sessions)
    requires forall j :: 0 <= j < |subs| ==> subs[j].session != id
    ensures GetById(sessions, subs, id).Ok?
    ensures var d := GetById(sessions, subs, id).value;
      ResumeType(d.lastSubSessionType, d.row.pomodoroCount, d.row.config.sessionUntilLongBreak) == Work
  {
  }

  /** What the provider renders. */
  datatype Screen = Loading | NewSessionScreen | SessionEndedScreen | TimerScreen

  /** Status-based dispatch: nothing until the session has loaded, then the
      new-session and ended screens by status, and the timer only once an
      open sub-session has been adopted. */
  function Dispatch(session: Option<AggregatedRow>, hasSubSession: bool): (r: Screen)
    ensures r == TimerScreen <==> session.Some? && session.value.status == Active && hasSubSession
    ensures r == NewSessionScreen <==> session.Some? && session.value.status == New
    ensures r == SessionEndedScreen <==> session.Some? && session.value.status == Completed
  {
    if session.None? then Loading
    else if session.value.status == New then NewSessionScreen
    else if session.value.status == Completed then SessionEndedScreen
    else if !hasSubSession then Loading
    else assert session.value.status.Active?; TimerScreen
  }

  /** What `handleChangeStatus` puts on the wire: the status, and on
      completion the elapsed seconds of the current sub-session. The
      `changeStatus` route reads only the status. */
  datatype StatusRequest = StatusRequest(status: Status, subSessionDurationElapsed: Option<int>)

  class Provider {
    /** The session id from the route. */
    const sessionId: nat
    var firstLoad: bool
    var subSession: Option<SubSessionRow>

    constructor (sessionId: nat)
      ensures this.sessionId == sessionId && firstLoad && subSession == None
    {
      this.sessionId := sessionId;
      firstLoad, subSession := true, None;
    }

    /** The route's session id changed (or the provider unmounted). */
    method Forget()
      modifies this
      ensures firstLoad && subSession == None
    {
      firstLoad, subSession := true, None;
    }

    /** `setSubSession`, also called by the timer after each transition. */
    method SetSubSession(row: SubSessionRow)
      modifies this
      ensures subSession == Some(row) && firstLoad == old(firstLoad)
    {
      subSession := Some(row);
    }

    /** The effect on the two queries: `detail` is the `getById` answer once
        loaded, `current` the `getCurrent` answer once loaded (itself None
        when nothing is open). An open sub-session is adopted; otherwise, on
        the first load only, one of the resume type is created. */
    method OnQueries(store: RecordStore, detail: Option<SessionDetail>,
                     current: Option<Option<SubSessionRow>>)
      returns (created: Option<Result<SubSessionRow>>)
      requires store.Valid()
      modifies this, store
      ensures store.Valid()
      ensures created.Some? <==>
                && detail.Some? && current.Some? && detail.value.row.status != New
                && current.value.None? && old(firstLoad)
      ensures created.None? ==> unchanged(store)
      ensures created.Some? ==>
                var d := detail.value;
                var kind := ResumeType(d.lastSubSessionType, d.row.pomodoroCount,
                                       d.row.config.sessionUntilLongBreak);
                && (d.row.id !in SessionIds(old(store.sessions)) ==>
                      created.value == Err(NotFound) && unchanged(store))
                && (d.row.id in SessionIds(old(store.sessions)) ==>
                      && created.value == Ok(SubSessionRow(old(store.nextId), d.row.id, kind, 0, false, None))
                      && store.sessions == old(store.sessions)
                      && store.subSessions == old(store.subSessions) + [created.value.value])
      ensures detail.None? || current.None? || detail.value.row.status == New ==>
                firstLoad == old(firstLoad) && subSession == old(subSession)
      ensures detail.Some? && current.Some? && detail.value.row.status != New ==>
                !firstLoad &&
                subSession == (if current.value.Some? then current.value else old(subSession))
    {
      created := None;
      if detail.None? || current.None? || detail.value.row.status == New {
        return;
      }
      var wasFirstLoad := firstLoad;
      firstLoad := false;
      if current.value.Some? {
        subSession := current.value;
        return;
      }
      if !wasFirstLoad {
        return;
      }
      var d := detail.value;
      var kind := ResumeType(d.lastSubSessionType, d.row.pomodoroCount,
                             d.row.config.sessionUntilLongBreak);
      var r := store.CreateSubSession(d.row.id, kind);
      created := Some(r);
    }

    /** `handleChangeStatus`: a status other than completed is sent alone;
        completion is sent only with the session loaded, a sub-session
        adopted and a `timeLeft` given, and then carries the elapsed seconds
        of that sub-session. */
    method HandleChangeStatus(store: RecordStore, detail: Option<SessionDetail>, status: Status,
                              timeLeft: Option<int>)
      returns (sent: Option<StatusRequest>, r: Option<Result<AggregatedRow>>)
      requires store.Valid()
      modifies store
      ensures store.Valid()
      ensures sent.None? <==>
                status == Completed && (detail.None? || subSession.None? || timeLeft.None?)
      ensures sent.None? ==> r == None && unchanged(store)
      ensures sent.Some? ==> sent.value.status == status
      ensures sent.Some? && status != Completed ==> sent.value.subSessionDurationElapsed == None
      ensures sent.Some? && status == Completed ==>
                sent.value.subSessionDurationElapsed ==
                  Some(FullSeconds(detail.value.row.config, subSession.value.kind) - timeLeft.value)
      ensures sent.Some? ==>
                && r.Some?
                && (FindSession(old(store.sessions), sessionId).None? ==>
                      r.value == Err(NotFound) && unchanged(store))
                && (FindSession(old(store.sessions), sessionId).Some? ==>
                      var k := FindSession(old(store.sessions), sessionId).value;
                      && store.subSessions == old(store.subSessions)
                      && store.sessions == old(store.sessions)[k := old(store.sessions)[k].(status := status)])
    {
      if status != Completed {
        sent := Some(StatusRequest(status, None));
      } else if detail.None? || subSession.None? || timeLeft.None? {
        return None, None;
      } else {
        var elapsed := FullSeconds(detail.value.row.config, subSession.value.kind) - timeLeft.value;
        sent := Some(StatusRequest(Completed, Some(elapsed)));
      }
      var answer := store.ChangeStatus(sessionId, status, None, None);
      r := Some(answer);
    }
  }
}
