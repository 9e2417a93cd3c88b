/** The three PocketBase collections of the timer and the
    `pomodoro_timer__sessions_aggregated` view, which is a count and a sum over
    a session's completed work sub-sessions. Record ids are drawn from one
    increasing counter, so a larger id means a later `created` stamp. */
module Schema {
  import opened Common

  /** A row of `pomodoro_timer__sessions`. `pomodoroCount` and
      `totalTimeElapsed` are the stored columns, absent until the batch path of
      `changeStatus` writes them. */
  datatype SessionRow = SessionRow(
    id: nat,
    name: string,
    config: SessionConfig,
    status: Status,
    pomodoroCount: Option<int>,
    totalTimeElapsed: Option<int>)

  /** A row of `pomodoro_timer__sub_sessions`; `session` is the owning relation. */
  datatype SubSessionRow = SubSessionRow(
    id: nat,
    session: nat,
    kind: SubSessionType,
    durationElapsed: int,
    isCompleted: bool,
    ended: Option<string>)

  /** A row of the aggregated view: the session's own columns plus the two
      derived ones; `totalTimeElapsed` is SQL NULL (None) when nothing joined. */
  datatype AggregatedRow = AggregatedRow(
    id: nat,
    name: string,
    config: SessionConfig,
    status: Status,
    pomodoroCount: nat,
    totalTimeElapsed: Option<int>)

  /** The join condition `s.id = wss.session AND wss.type = 'work' AND wss.is_completed = TRUE`. */
  predicate Joins(r: SubSessionRow, sessionId: nat) {
    r.session == sessionId && r.kind == Work && r.isCompleted
  }

  /** The sub-session rows the LEFT JOIN attaches to one session, in store order. */
  function Joined(subs: seq<SubSessionRow>, sessionId: nat): (r: seq<SubSessionRow>)
    ensures |r| <= |subs|
    ensures forall x :: x in r ==> x in subs && Joins(x, sessionId)
  {
    if subs == [] then []
    else
      var last := subs[|subs| - 1];
      Joined(subs[..|subs| - 1], sessionId) + (if Joins(last, sessionId) then [last] else [])
  }

  function SumDurations(rows: seq<SubSessionRow>): int {
    if rows == [] then 0 else SumDurations(rows[..|rows| - 1]) + rows[|rows| - 1].durationElapsed
  }

  /** One row of the view: `COUNT(wss.id)` and `SUM(wss.duration_elapsed)` grouped by `s.id`. */
  function Aggregate(s: SessionRow, subs: seq<SubSessionRow>): AggregatedRow {
    var j := Joined(subs, s.id);
    AggregatedRow(s.id, s.name, s.config, s.status, |j|,
                  if j == [] then None else Some(SumDurations(j)))
  }

  /** The whole view, one row per session row, in the sessions' order. */
  function View(sessions: seq<SessionRow>, subs: seq<SubSessionRow>): (v: seq<AggregatedRow>)
    ensures |v| == |sessions|
    ensures forall k :: 0 <= k < |sessions| ==> v[k] == Aggregate(sessions[k], subs)
  {
    seq(|sessions|, k requires 0 <= k < |sessions| => Aggregate(sessions[k], subs))
  }

  /** The positions of the rows that count toward a session: an independent,
      set-based reading of the join. */
  function JoinedPositions(subs: seq<SubSessionRow>, sessionId: nat): set<nat> {
    set k: nat | k < |subs| && Joins(subs[k], sessionId)
  }

  lemma JoinedPositionsSnoc(subs: seq<SubSessionRow>, x: SubSessionRow, sessionId: nat)
    ensures JoinedPositions(subs + [x], sessionId)
         == JoinedPositions(subs, sessionId) + (if Joins(x, sessionId) then {|subs|} else {})
  {
    var l, r := JoinedPositions(subs + [x], sessionId), JoinedPositions(subs, sessionId);
    forall k | k in l ensures k in r + (if Joins(x, sessionId) then {|subs|} else {}) {
      if k < |subs| { assert (subs + [x])[k] == subs[k]; }
    }
    forall k | k in r ensures k in l { assert (subs + [x])[k] == subs[k]; }
  }

  /** The view's `pomodoro_count` is the number of the session's sub-sessions
      with type = work and is_completed = true. */
  lemma {:induction false} CountIsCompletedWork(s: SessionRow, subs: seq<SubSessionRow>)
    ensures Aggregate(s, subs).pomodoroCount == |JoinedPositions(subs, s.id)|
  {
    if subs != [] {
      var init, last := subs[..|subs| - 1], subs[|subs| - 1];
      CountIsCompletedWork(s, init);
      assert subs == init + [last];
      JoinedPositionsSnoc(init, last, s.id);
      assert |subs| - 1 !in JoinedPositions(init, s.id);
    } else {
      assert JoinedPositions(subs, s.id) == {};
    }
  }

  lemma {:induction false} JoinedAppend(a: seq<SubSessionRow>, b: seq<SubSessionRow>, sessionId: nat)
    ensures Joined(a + b, sessionId) == Joined(a, sessionId) + Joined(b, sessionId)
  {
    if b == [] {
      assert a + b == a;
    } else {
      var init, last := b[..|b| - 1], b[|b| - 1];
      assert (a + b)[..|a + b| - 1] == a + init;
      JoinedAppend(a, init, sessionId);
    }
  }

  lemma {:induction false} SumDurationsAppend(a: seq<SubSessionRow>, b: seq<SubSessionRow>)
    ensures SumDurations(a + b) == SumDurations(a) + SumDurations(b)
  {
    if b == [] {
      assert a + b == a;
    } else {
      assert (a + b)[..|a + b| - 1] == a + b[..|b| - 1];
      SumDurationsAppend(a, b[..|b| - 1]);
    }
  }

  /** Replacing one row changes the number of joined rows by what the old row
      and the new row each contribute. */
  lemma {:induction false} JoinedUpdate(subs: seq<SubSessionRow>, k: nat, x: SubSessionRow, sessionId: nat)
    requires k < |subs|
    ensures |Joined(subs[k := x], sessionId)| + (if Joins(subs[k], sessionId) then 1 else 0)
         == |Joined(subs, sessionId)| + (if Joins(x, sessionId) then 1 else 0)
  {
    var init, last := subs[..|subs| - 1], subs[|subs| - 1];
    var upd := subs[k := x];
    assert Joined(subs, sessionId) == Joined(init, sessionId) + (if Joins(last, sessionId) then [last] else []);
    if k == |subs| - 1 {
      assert upd[..|upd| - 1] == init;
      assert Joined(upd, sessionId) == Joined(init, sessionId) + (if Joins(x, sessionId) then [x] else []);
    } else {
      assert upd[..|upd| - 1] == init[k := x];
      assert upd[|upd| - 1] == last;
      assert Joined(upd, sessionId) == Joined(init[k := x], sessionId) + (if Joins(last, sessionId) then [last] else []);
      JoinedUpdate(init, k, x, sessionId);
    }
  }

  /** Appending rows changes a session's view row by exactly the count and the
      sum of the appended rows that join: breaks, incomplete work and other
      sessions' rows contribute nothing. */
  lemma AggregateAppend(s: SessionRow, a: seq<SubSessionRow>, b: seq<SubSessionRow>)
    ensures Aggregate(s, a + b).pomodoroCount
         == Aggregate(s, a).pomodoroCount + |Joined(b, s.id)|
    ensures Aggregate(s, a + b).totalTimeElapsed
         == if Joined(a, s.id) + Joined(b, s.id) == [] then None
            else Some(Aggregate(s, a).totalTimeElapsed.GetOr(0) + SumDurations(Joined(b, s.id)))
  {
    JoinedAppend(a, b, s.id);
    SumDurationsAppend(Joined(a, s.id), Joined(b, s.id));
  }

  /** A session none of whose sub-sessions joins still has a view row, with
      count 0 and a NULL total. */
  lemma {:induction false} NothingJoinedGivesZero(s: SessionRow, subs: seq<SubSessionRow>)
    requires forall k :: 0 <= k < |subs| ==> !Joins(subs[k], s.id)
    ensures Aggregate(s, subs).pomodoroCount == 0
    ensures Aggregate(s, subs).totalTimeElapsed == None
  {
    if subs != [] {
      NothingJoinedGivesZero(s, subs[..|subs| - 1]);
    }
  }

  /** The view's total is NULL exactly when the count is 0, and otherwise the
      sum of the joined rows' elapsed seconds. */
  lemma TotalAbsentIffNoCount(s: SessionRow, subs: seq<SubSessionRow>)
    ensures Aggregate(s, subs).totalTimeElapsed.None? <==> Aggregate(s, subs).pomodoroCount == 0
    ensures Aggregate(s, subs).pomodoroCount > 0 ==>
              Aggregate(s, subs).totalTimeElapsed == Some(SumDurations(Joined(subs, s.id)))
  {
  }

  /** Every session row yields exactly one view row, carrying that row's id,
      name, configuration and status unchanged. */
  lemma ViewCopiesSessionColumns(sessions: seq<SessionRow>, subs: seq<SubSessionRow>, k: nat)
    requires k < |sessions|
    ensures |View(sessions, subs)| == |sessions|
    ensures var v := View(sessions, subs)[k];
      v.id == sessions[k].id && v.name == sessions[k].name &&
      v.config == sessions[k].config && v.status == sessions[k].status
  {
  }

  /** The rows a filter keeps, in store order. */
  function Where(subs: seq<SubSessionRow>, keep: SubSessionRow -> bool): (r: seq<SubSessionRow>)
    ensures |r| <= |subs|
    ensures forall x :: x in r <==> x in subs && keep(x)
  {
    if subs == [] then []
    else
      var last := subs[|subs| - 1];
      assert forall x :: x in subs <==> x in subs[..|subs| - 1] || x == last;
      Where(subs[..|subs| - 1], keep) + (if keep(last) then [last] else [])
  }

  /** Rows kept in creation order: ids strictly increase along the sequence. */
  ghost predicate IdsIncreasing(subs: seq<SubSessionRow>) {
    forall i, j :: 0 <= i < j < |subs| ==> subs[i].id < subs[j].id
  }

  /** Filtering keeps creation order. */
  lemma {:induction false} WhereKeepsOrder(subs: seq<SubSessionRow>, keep: SubSessionRow -> bool)
    requires IdsIncreasing(subs)
    ensures IdsIncreasing(Where(subs, keep))
  {
    if subs != [] {
      var init, last := subs[..|subs| - 1], subs[|subs| - 1];
      WhereKeepsOrder(init, keep);
      var r := Where(subs, keep);
      var w := Where(init, keep);
      assert r == w + (if keep(last) then [last] else []);
      forall i, j | 0 <= i < j < |r| ensures r[i].id < r[j].id {
        if j >= |w| {
          assert r[i] in init;
        }
      }
    }
  }

  /** The `cascadeDelete: true` relation: deleting a session deletes every
      sub-session whose `session` points to it, and nothing else. */
  function WithoutSession(subs: seq<SubSessionRow>, sessionId: nat): (r: seq<SubSessionRow>)
    ensures |r| <= |subs|
    ensures forall x :: x in r <==> x in subs && x.session != sessionId
  {
    Where(subs, (x: SubSessionRow) => x.session != sessionId)
  }
}
