/** The server routes of the timer (`sessions` and `subSessions`) over an
    in-memory record store. Rows are kept in creation order; every creation
    draws its id from `nextId`, so ids increase along each sequence and the
    newest row matching a filter is the last one. The routes' existence checks
    become `Err(NotFound)` results that leave the store untouched. */
module Store {
  import opened Common
  import opened Schema

  /** The zod bounds of `sessions.create`. */
  predicate ValidCreateConfig(c: SessionConfig) {
    1 <= c.workDuration <= 120 && 1 <= c.shortBreakDuration <= 60 &&
    1 <= c.longBreakDuration <= 120 && 1 <= c.sessionUntilLongBreak <= 10
  }

  /** `getById`'s answer: the aggregated row plus the newest sub-session's type. */
  datatype SessionDetail = SessionDetail(lastSubSessionType: SubSessionType, row: AggregatedRow)

  function SessionIds(s: seq<SessionRow>): set<nat> {
    set x <- s :: x.id
  }

  ghost predicate SessionIdsIncreasing(s: seq<SessionRow>) {
    forall i, j :: 0 <= i < j < |s| ==> s[i].id < s[j].id
  }

  /** The position of the session with a given id, if there is one. */
  function FindSession(s: seq<SessionRow>, id: nat): (r: Option<nat>)
    ensures r.Some? ==> r.value < |s| && s[r.value].id == id
    ensures r.None? <==> id !in SessionIds(s)
  {
    if s == [] then None
    else if s[|s| - 1].id == id then Some(|s| - 1)
    else
      var r := FindSession(s[..|s| - 1], id);
      assert forall x :: x in s <==> x in s[..|s| - 1] || x == s[|s| - 1];
      assert SessionIds(s) == SessionIds(s[..|s| - 1]) + {s[|s| - 1].id};
      r
  }

  /** The position of the sub-session with a given id, if there is one. */
  function FindSub(s: seq<SubSessionRow>, id: nat): (r: Option<nat>)
    ensures r.Some? ==> r.value < |s| && s[r.value].id == id
    ensures r.None? ==> forall k :: 0 <= k < |s| ==> s[k].id != id
  {
    if s == [] then None
    else if s[|s| - 1].id == id then Some(|s| - 1)
    else FindSub(s[..|s| - 1], id)
  }

  /** A sub-session of `sessionId`; with `openOnly`, also still incomplete. */
  predicate Matches(r: SubSessionRow, sessionId: nat, openOnly: bool) {
    r.session == sessionId && (!openOnly || !r.isCompleted)
  }

  /** `getFirstListItem` with `sort(['-created'])`: the newest matching row. */
  function Newest(subs: seq<SubSessionRow>, sessionId: nat, openOnly: bool): (r: Option<nat>)
    ensures r.Some? ==> r.value < |subs| && Matches(subs[r.value], sessionId, openOnly)
    ensures r.Some? ==> forall j :: r.value < j < |subs| ==> !Matches(subs[j], sessionId, openOnly)
    ensures r.None? ==> forall j :: 0 <= j < |subs| ==> !Matches(subs[j], sessionId, openOnly)
  {
    if subs == [] then None
    else if Matches(subs[|subs| - 1], sessionId, openOnly) then Some(|subs| - 1)
    else Newest(subs[..|subs| - 1], sessionId, openOnly)
  }

  /** The positions of a session's incomplete sub-sessions. */
  function OpenPositions(subs: seq<SubSessionRow>, sessionId: nat): set<nat> {
    set k: nat | k < |subs| && Matches(subs[k], sessionId, true)
  }

  /** `lastSubSession?.type || 'short_break'`. */
  function LastSubSessionType(subs: seq<SubSessionRow>, sessionId: nat): SubSessionType {
    match Newest(subs, sessionId, false)
    case Some(k) => subs[k].kind
    case None => ShortBreak
  }

  /** `sessions.getById`: the view row of the session and the type of its most
      recently created sub-session, or 'short_break' when it has none. */
  function GetById(sessions: seq<SessionRow>, subs: seq<SubSessionRow>, id: nat): (r: Result<SessionDetail>)
    ensures r.Err? <==> id !in SessionIds(sessions)
    ensures r.Err? ==> r.error == NotFound
    ensures r.Ok? ==> exists k :: 0 <= k < |sessions| && sessions[k].id == id &&
                                 r.value.row == View(sessions, subs)[k]
    ensures r.Ok? && (forall j :: 0 <= j < |subs| ==> subs[j].session != id) ==>
              r.value.lastSubSessionType == ShortBreak
    ensures r.Ok? ==>
              forall j :: (0 <= j < |subs| && subs[j].session == id &&
                           forall j' :: j < j' < |subs| ==> subs[j'].session != id) ==>
                r.value.lastSubSessionType == subs[j].kind
  {
    match FindSession(sessions, id)
    case None => Err(NotFound)
    case Some(k) => Ok(SessionDetail(LastSubSessionType(subs, id), Aggregate(sessions[k], subs)))
  }

  /** `sessions.list`: every view row, newest session first. */
  function ListSessions(sessions: seq<SessionRow>, subs: seq<SubSessionRow>): (r: seq<AggregatedRow>)
    ensures |r| == |sessions|
    ensures forall k :: 0 <= k < |r| ==> r[k] == Aggregate(sessions[|sessions| - 1 - k], subs)
  {
    Reverse(View(sessions, subs))
  }

  /** `sessions.listSubSessions`: the session's sub-sessions, oldest first. */
  function ListSubSessionsOf(sessions: seq<SessionRow>, subs: seq<SubSessionRow>, sessionId: nat)
    : (r: Result<seq<SubSessionRow>>)
    ensures r.Err? <==> sessionId !in SessionIds(sessions)
    ensures r.Err? ==> r.error == NotFound
    ensures r.Ok? ==> forall x :: x in r.value <==> x in subs && x.session == sessionId
    ensures r.Ok? && IdsIncreasing(subs) ==> IdsIncreasing(r.value)
  {
    if sessionId !in SessionIds(sessions) then Err(NotFound)
    else
      var keep := (x: SubSessionRow) => x.session == sessionId;
      WhereKeepsOrder2(subs, keep);
      Ok(Where(subs, keep))
  }

  lemma WhereKeepsOrder2(subs: seq<SubSessionRow>, keep: SubSessionRow -> bool)
    ensures IdsIncreasing(subs) ==> IdsIncreasing(Where(subs, keep))
  {
    if IdsIncreasing(subs) { WhereKeepsOrder(subs, keep); }
  }

  /** `subSessions.getCurrent`: the session's newest incomplete sub-session, or
      null when it has none. */
  function GetCurrent(sessions: seq<SessionRow>, subs: seq<SubSessionRow>, sessionId: nat)
    : (r: Result<Option<SubSessionRow>>)
    ensures r.Err? <==> sessionId !in SessionIds(sessions)
    ensures r.Err? ==> r.error == NotFound
    ensures r.Ok? ==> (r.value.None? <==> OpenPositions(subs, sessionId) == {})
    ensures r.Ok? && r.value.Some? ==>
              exists k :: k in OpenPositions(subs, sessionId) && subs[k] == r.value.value &&
                          forall j :: j in OpenPositions(subs, sessionId) ==> j <= k
  {
    if sessionId !in SessionIds(sessions) then Err(NotFound)
    else
      match Newest(subs, sessionId, true)
      case None => Ok(None)
      case Some(k) =>
        assert k in OpenPositions(subs, sessionId);
        Ok(Some(subs[k]))
  }

  /** `subSessions.list`: all sub-sessions newest first, restricted to the
      inclusive `created` range only when both bounds are given. */
  function ListSubSessions(subs: seq<SubSessionRow>, startDate: Option<nat>, endDate: Option<nat>)
    : (r: seq<SubSessionRow>)
    ensures startDate.None? || endDate.None? ==> r == Reverse(subs)
    ensures startDate.Some? && endDate.Some? ==>
              forall x :: x in r <==> x in subs && startDate.value <= x.id <= endDate.value
    ensures IdsIncreasing(subs) ==> forall i, j :: 0 <= i < j < |r| ==> r[i].id > r[j].id
  {
    if startDate.Some? && endDate.Some? then
      var inRange := Where(subs, (x: SubSessionRow) => startDate.value <= x.id <= endDate.value);
      WhereKeepsOrder2(subs, (x: SubSessionRow) => startDate.value <= x.id <= endDate.value);
      var r := Reverse(inRange);
      assert forall x :: x in r <==> x in inRange by {
        forall x | x in inRange ensures x in r {
          var k :| 0 <= k < |inRange| && inRange[k] == x;
          assert r[|inRange| - 1 - k] == x;
        }
      }
      r
    else Reverse(subs)
  }

  /** The rows of the batch path of `changeStatus`: one per element, in order,
      linked to the session, copying type, elapsed, ended and completion. */
  function BatchRows(batch: seq<SegmentRecord>, sessionId: nat, firstId: nat): (r: seq<SubSessionRow>)
    ensures |r| == |batch|
  {
    seq(|batch|, k requires 0 <= k < |batch| =>
      SubSessionRow(firstId + k, sessionId, batch[k].kind, batch[k].durationElapsed,
                    batch[k].isCompleted, Some(batch[k].ended)))
  }

  /** Whether `changeStatus` takes its batch path. */
  predicate IsBatch(status: Status, batch: Option<seq<SegmentRecord>>) {
    status == Completed && batch.Some? && |batch.value| > 0
  }

  /** The batch rows that join the view are exactly the batch's completed
      work records. */
  lemma {:induction false} JoinedBatch(batch: seq<SegmentRecord>, sessionId: nat, firstId: nat)
    ensures |Joined(BatchRows(batch, sessionId, firstId), sessionId)| == CompletedWork(batch)
  {
    if batch != [] {
      var init := batch[..|batch| - 1];
      var rows := BatchRows(batch, sessionId, firstId);
      JoinedBatch(init, sessionId, firstId);
      assert rows[..|rows| - 1] == BatchRows(init, sessionId, firstId);
    }
  }

  /** After the batch path, the count a caller reads back (the view's) is the
      old view count plus the batch's completed work records; the
      `pomodoroCount` argument written to the stored column plays no part. */
  lemma BatchCountReadBack(s: SessionRow, subs: seq<SubSessionRow>, batch: seq<SegmentRecord>,
                           firstId: nat, pomodoroCount: Option<int>)
    ensures Aggregate(s.(status := Completed, totalTimeElapsed := Some(SumElapsed(batch)),
                         pomodoroCount := Some(pomodoroCount.GetOr(0))),
                      subs + BatchRows(batch, s.id, firstId)).pomodoroCount
         == Aggregate(s, subs).pomodoroCount + CompletedWork(batch)
  {
    AggregateAppend(s, subs, BatchRows(batch, s.id, firstId));
    JoinedBatch(batch, s.id, firstId);
  }

  lemma SessionIdsAfterUpdate(s: seq<SessionRow>, k: nat, row: SessionRow)
    requires k < |s| && row.id == s[k].id
    ensures SessionIds(s[k := row]) == SessionIds(s)
    ensures SessionIdsIncreasing(s) ==> SessionIdsIncreasing(s[k := row])
  {
    var t := s[k := row];
    forall x | x in SessionIds(s) ensures x in SessionIds(t) {
      var i :| 0 <= i < |s| && s[i].id == x;
      assert t[i].id == x;
    }
  }

  /** The sessions that remain after deleting the one with a given id. */
  function SessionsWithout(s: seq<SessionRow>, id: nat): (r: seq<SessionRow>)
    ensures forall x :: x in r <==> x in s && x.id != id
  {
    if s == [] then []
    else
      var last := s[|s| - 1];
      assert forall x :: x in s <==> x in s[..|s| - 1] || x == last;
      SessionsWithout(s[..|s| - 1], id) + (if last.id != id then [last] else [])
  }

  lemma SessionIdsWithout(s: seq<SessionRow>, id: nat)
    ensures SessionIds(SessionsWithout(s, id)) == SessionIds(s) - {id}
  {
  }

  /** Deleting a session keeps the others in creation order. */
  lemma {:induction false} SessionsWithoutKeepsOrder(s: seq<SessionRow>, id: nat)
    requires SessionIdsIncreasing(s)
    ensures SessionIdsIncreasing(SessionsWithout(s, id))
  {
    if s != [] {
      var init, last := s[..|s| - 1], s[|s| - 1];
      SessionsWithoutKeepsOrder(init, id);
      var r, w := SessionsWithout(s, id), SessionsWithout(init, id);
      assert r == w + (if last.id != id then [last] else []);
      forall i, j | 0 <= i < j < |r| ensures r[i].id < r[j].id {
        if j >= |w| { assert r[i] in init; }
      }
    }
  }

  /** The store's invariant: ids are below the counter and increase in
      creation order, and every sub-session belongs to a stored session. */
  ghost predicate WellFormed(sessions: seq<SessionRow>, subs: seq<SubSessionRow>, nextId: nat) {
    && (forall k :: 0 <= k < |sessions| ==> sessions[k].id < nextId)
    && (forall k :: 0 <= k < |subs| ==> subs[k].id < nextId)
    && SessionIdsIncreasing(sessions)
    && IdsIncreasing(subs)
    && (forall k :: 0 <= k < |subs| ==> subs[k].session in SessionIds(sessions))
  }

  /** Deleting a session together with its sub-sessions keeps the invariant
      and leaves no row pointing to it. */
  lemma WellFormedAfterRemove(sessions: seq<SessionRow>, subs: seq<SubSessionRow>, nextId: nat, id: nat)
    requires WellFormed(sessions, subs, nextId)
    ensures WellFormed(SessionsWithout(sessions, id), WithoutSession(subs, id), nextId)
    ensures id !in SessionIds(SessionsWithout(sessions, id))
    ensures forall k :: 0 <= k < |WithoutSession(subs, id)| ==> WithoutSession(subs, id)[k].session != id
  {
    var s2, subs2 := SessionsWithout(sessions, id), WithoutSession(subs, id);
    WhereKeepsOrder(subs, (x: SubSessionRow) => x.session != id);
    SessionsWithoutKeepsOrder(sessions, id);
    SessionIdsWithout(sessions, id);
    forall k | 0 <= k < |subs2|
      ensures subs2[k].id < nextId && subs2[k].session in SessionIds(s2) && subs2[k].session != id
    {
      assert subs2[k] in subs;
    }
    forall k | 0 <= k < |s2| ensures s2[k].id < nextId {
      assert s2[k] in sessions;
    }
  }

  class RecordStore {
    var sessions: seq<SessionRow>
    var subSessions: seq<SubSessionRow>
    var nextId: nat

    /** Ids are fresh and increase in creation order, and every sub-session
        belongs to a stored session. */
    ghost predicate Valid()
      reads this
    {
      WellFormed(sessions, subSessions, nextId)
    }

    constructor ()
      ensures Valid()
      ensures sessions == [] && subSessions == []
    {
      sessions, subSessions, nextId := [], [], 0;
    }

    /** `sessions.create`: rejects any duration or cycle length outside its
        bounds without writing; otherwise stores the given configuration with
        status 'new'. */
    method CreateSession(name: string, config: SessionConfig) returns (r: Result<SessionRow>)
      requires Valid()
      modifies this
      ensures Valid()
      ensures !ValidCreateConfig(config) ==> r == Err(Invalid) && unchanged(this)
      ensures ValidCreateConfig(config) ==>
                && r == Ok(SessionRow(old(nextId), name, config, New, None, None))
                && sessions == old(sessions) + [r.value]
                && subSessions == old(subSessions)
    {
      if !ValidCreateConfig(config) {
        return Err(Invalid);
      }
      var row := SessionRow(nextId, name, config, New, None, None);
      sessions := sessions + [row];
      nextId := nextId + 1;
      assert SessionIds(sessions) == SessionIds(old(sessions)) + {row.id};
      r := Ok(row);
    }

    /** `sessions.update`: changes the name only. */
    method UpdateSession(id: nat, name: string) returns (r: Result<SessionRow>)
      requires Valid()
      modifies this
      ensures Valid()
      ensures FindSession(old(sessions), id).None? ==> r == Err(NotFound) && unchanged(this)
      ensures FindSession(old(sessions), id).Some? ==>
                var k := FindSession(old(sessions), id).value;
                && sessions == old(sessions)[k := old(sessions)[k].(name := name)]
                && subSessions == old(subSessions)
                && r == Ok(sessions[k])
    {
      match FindSession(sessions, id)
      case None =>
        return Err(NotFound);
      case Some(k) =>
        var row := sessions[k].(name := name);
        SessionIdsAfterUpdate(sessions, k, row);
        sessions := sessions[k := row];
        r := Ok(row);
    }

    /** Append one sub-session row of a stored session under a fresh id. */
    method AppendSubSession(sessionId: nat, kind: SubSessionType, elapsed: int, completed: bool,
                            ended: Option<string>) returns (row: SubSessionRow)
      requires Valid() && sessionId in SessionIds(sessions)
      modifies this
      ensures Valid()
      ensures row == SubSessionRow(old(nextId), sessionId, kind, elapsed, completed, ended)
      ensures sessions == old(sessions) && subSessions == old(subSessions) + [row]
      ensures nextId == old(nextId) + 1
    {
      row := SubSessionRow(nextId, sessionId, kind, elapsed, completed, ended);
      subSessions := subSessions + [row];
      nextId := nextId + 1;
    }

    /** The batch loop of `changeStatus`: one sub-session row per element, in
        order, under consecutive fresh ids. */
    method AppendBatch(id: nat, items: seq<SegmentRecord>)
      requires Valid() && id in SessionIds(sessions)
      modifies this
      ensures Valid()
      ensures sessions == old(sessions) && nextId == old(nextId) + |items|
      ensures subSessions == old(subSessions) + BatchRows(items, id, old(nextId))
    {
      var i := 0;
      while i < |items|
        invariant 0 <= i <= |items|
        invariant Valid()
        invariant sessions == old(sessions)
        invariant nextId == old(nextId) + i
        invariant subSessions == old(subSessions) + BatchRows(items[..i], id, old(nextId))
      {
        var row := AppendSubSession(id, items[i].kind, items[i].durationElapsed,
                                    items[i].isCompleted, Some(items[i].ended));
        assert BatchRows(items[..i + 1], id, old(nextId))
            == BatchRows(items[..i], id, old(nextId)) + [row];
        i := i + 1;
      }
      assert items[..i] == items;
    }

    /** `sessions.changeStatus`. With status 'completed' and a non-empty batch
        it creates one sub-session per element and writes status, the batch's
        summed elapsed time and `pomodoroCount ?? 0`; every other call writes
        the status alone. The answer is the session's view row. */
    method ChangeStatus(id: nat, status: Status, batch: Option<seq<SegmentRecord>>,
                        pomodoroCount: Option<int>) returns (r: Result<AggregatedRow>)
      requires Valid()
      modifies this
      ensures Valid()
      ensures FindSession(old(sessions), id).None? ==> r == Err(NotFound) && unchanged(this)
      ensures FindSession(old(sessions), id).Some? ==>
                var k := FindSession(old(sessions), id).value;
                && (IsBatch(status, batch) ==>
                      && subSessions == old(subSessions) + BatchRows(batch.value, id, old(nextId))
                      && sessions == old(sessions)[k := old(sessions)[k].(
                           status := status,
                           totalTimeElapsed := Some(SumElapsed(batch.value)),
                           pomodoroCount := Some(pomodoroCount.GetOr(0)))])
                && (!IsBatch(status, batch) ==>
                      && subSessions == old(subSessions)
                      && sessions == old(sessions)[k := old(sessions)[k].(status := status)])
                && r == Ok(View(sessions, subSessions)[k])
    {
      var found := FindSession(sessions, id);
      if found.None? {
        return Err(NotFound);
      }
      var k := found.value;
      if IsBatch(status, batch) {
        var items := batch.value;
        AppendBatch(id, items);
        var updated := sessions[k].(status := status,
                                    totalTimeElapsed := Some(SumElapsed(items)),
                                    pomodoroCount := Some(pomodoroCount.GetOr(0)));
        SessionIdsAfterUpdate(sessions, k, updated);
        sessions := sessions[k := updated];
      } else {
        var updated := sessions[k].(status := status);
        SessionIdsAfterUpdate(sessions, k, updated);
        sessions := sessions[k := updated];
      }
      r := Ok(Aggregate(sessions[k], subSessions));
    }

    /** `sessions.remove`: deletes the session and, by the cascading relation,
        every sub-session that points to it. */
    method RemoveSession(id: nat) returns (r: Result<()>)
      requires Valid()
      modifies this
      ensures Valid()
      ensures id !in SessionIds(old(sessions)) ==> r == Err(NotFound) && unchanged(this)
      ensures id in SessionIds(old(sessions)) ==>
                && r == Ok(())
                && sessions == SessionsWithout(old(sessions), id)
                && subSessions == WithoutSession(old(subSessions), id)
      ensures id !in SessionIds(sessions)
      ensures forall k :: 0 <= k < |subSessions| ==> subSessions[k].session != id
    {
      if id !in SessionIds(sessions) {
        return Err(NotFound);
      }
      WellFormedAfterRemove(sessions, subSessions, nextId, id);
      sessions := SessionsWithout(sessions, id);
      subSessions := WithoutSession(subSessions, id);
      r := Ok(());
    }

    /** `subSessions.create`: a new incomplete sub-session with nothing elapsed. */
    method CreateSubSession(sessionId: nat, kind: SubSessionType) returns (r: Result<SubSessionRow>)
      requires Valid()
      modifies this
      ensures Valid()
      ensures sessionId !in SessionIds(old(sessions)) ==> r == Err(NotFound) && unchanged(this)
      ensures sessionId in SessionIds(old(sessions)) ==>
                && r == Ok(SubSessionRow(old(nextId), sessionId, kind, 0, false, None))
                && sessions == old(sessions)
                && subSessions == old(subSessions) + [r.value]
    {
      if sessionId !in SessionIds(sessions) {
        return Err(NotFound);
      }
      var row := AppendSubSession(sessionId, kind, 0, false, None);
      r := Ok(row);
    }

    /** `subSessions.update`: writes the given fields of the named record only. */
    method UpdateSubSession(id: nat, durationElapsed: Option<int>, isCompleted: Option<bool>)
      returns (r: Result<SubSessionRow>)
      requires Valid()
      modifies this
      ensures Valid()
      ensures FindSub(old(subSessions), id).None? ==> r == Err(NotFound) && unchanged(this)
      ensures FindSub(old(subSessions), id).Some? ==>
                var k := FindSub(old(subSessions), id).value;
                var was := old(subSessions)[k];
                && subSessions == old(subSessions)[k := was.(
                     durationElapsed := durationElapsed.GetOr(was.durationElapsed),
                     isCompleted := isCompleted.GetOr(was.isCompleted))]
                && sessions == old(sessions)
                && r == Ok(subSessions[k])
    {
      match FindSub(subSessions, id)
      case None =>
        return Err(NotFound);
      case Some(k) =>
        var was := subSessions[k];
        var row := was.(durationElapsed := durationElapsed.GetOr(was.durationElapsed),
                        isCompleted := isCompleted.GetOr(was.isCompleted));
        subSessions := subSessions[k := row];
        r := Ok(row);
    }

    /** `subSessions.completeAndStartNew`: fails without writing when the
        session is unknown or has no incomplete sub-session; otherwise marks
        the newest incomplete one completed with the given elapsed time and
        creates an incomplete sub-session of the next type, which carries the
        `ended` stamp. */
    method CompleteAndStartNew(sessionId: nat, durationElapsed: int, endedTimestamp: string,
                               nextSessionType: SubSessionType) returns (r: Result<SubSessionRow>)
      requires Valid()
      modifies this
      ensures Valid()
      ensures (sessionId !in SessionIds(old(sessions)) || OpenPositions(old(subSessions), sessionId) == {})
              ==> r == Err(NotFound) && unchanged(this)
      ensures sessionId in SessionIds(old(sessions)) && OpenPositions(old(subSessions), sessionId) != {} ==>
                var k := Newest(old(subSessions), sessionId, true).value;
                && r == Ok(SubSessionRow(old(nextId), sessionId, nextSessionType, 0, false,
                                         Some(endedTimestamp)))
                && sessions == old(sessions)
                && subSessions == old(subSessions)[k := old(subSessions)[k].(
                     durationElapsed := durationElapsed, isCompleted := true)] + [r.value]
    {
      if sessionId !in SessionIds(sessions) {
        return Err(NotFound);
      }
      var newest := Newest(subSessions, sessionId, true);
      if newest.None? {
        assert OpenPositions(subSessions, sessionId) == {};
        return Err(NotFound);
      }
      var k := newest.value;
      assert k in OpenPositions(subSessions, sessionId);
      subSessions := subSessions[k := subSessions[k].(durationElapsed := durationElapsed,
                                                       isCompleted := true)];
      var row := AppendSubSession(sessionId, nextSessionType, 0, false, Some(endedTimestamp));
      r := Ok(row);
    }
  }

  /** After `completeAndStartNew` on a session with exactly one open
      sub-session, the session again has exactly one: the new one. */
  lemma OneOpenAfterCompleteAndStartNew(subs: seq<SubSessionRow>, sessionId: nat, k: nat,
                                        elapsed: int, started: SubSessionRow)
    requires OpenPositions(subs, sessionId) == {k}
    requires started.session == sessionId && !started.isCompleted
    ensures k < |subs|
    ensures OpenPositions(subs[k := subs[k].(durationElapsed := elapsed, isCompleted := true)] + [started],
                          sessionId) == {|subs|}
  {
    assert k in OpenPositions(subs, sessionId);
    var after := subs[k := subs[k].(durationElapsed := elapsed, isCompleted := true)] + [started];
    assert |subs| in OpenPositions(after, sessionId);
    forall j: nat | j < |subs| ensures !Matches(after[j], sessionId, true) {
      if j != k {
        assert after[j] == subs[j];
        assert j !in OpenPositions(subs, sessionId);
      }
    }
  }
}
