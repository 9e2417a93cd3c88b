/** The TimePage view (`client/src/pages/TimePage/index.tsx`): what it shows
    for the incremental timer's state, and its End Session action. */
module TimePage {
  import opened Common
  import opened Schema
  import opened Store
  import opened LiveTimer
  import opened CurrentSession
  import opened Display

  /** Everything the page derives from the session and the timer state. */
  datatype PageView = PageView(
    cycle: Option<int>,
    bars: seq<Bar>,
    caption: Caption,
    message: Message,
    controls: Controls)

  /** The page for a loaded session (the provider renders the page only then),
      with n the session's `session_until_long_break`. */
  function Page(session: AggregatedRow, st: LiveState): (r: PageView)
    ensures var n := session.config.sessionUntilLongBreak;
      && (n >= 1 ==> |r.bars| == 2 * n)
      && (n >= 1 ==> forall i :: 0 <= i < |r.bars| ==>
            (r.bars[i].current <==> i == CurrentBar(n, st.pomodoroCount, st.subSessionType)))
      && (n >= 1 && st.subSessionType == Work ==>
            r.caption.PomodoroOf? && r.caption.current.Some? && 1 <= r.caption.current.value <= n)
      && (st.subSessionType != Work <==> r.caption == BreakingTime)
      && r.message != Paused
      && (r.controls.skipEnabled ==> st.subSessionType != Work && !st.isRunning)
  {
    var n := session.config.sessionUntilLongBreak;
    PageView(CycleNumber(st.pomodoroCount, st.subSessionType, n),
             Bars(n, st.pomodoroCount, st.subSessionType),
             Label(n, st.pomodoroCount, st.subSessionType),
             StatusMessage(st.subSessionType, st.isRunning),
             TimePageControls(st.subSessionType, st.isRunning))
  }

  /** After the timer moves on (`nextSession`), the page highlights the next
      bar, wrapping to the first after the long break, and shows the next
      cycle number exactly when the long break has ended. */
  lemma PageAdvances(session: AggregatedRow, st: LiveState, autoStart: bool)
    requires session.config.sessionUntilLongBreak >= 1
    requires Consistent(st.subSessionType, st.pomodoroCount, session.config.sessionUntilLongBreak)
    ensures var n := session.config.sessionUntilLongBreak;
      var before := CurrentBar(n, st.pomodoroCount, st.subSessionType);
      var after := Page(session, Advanced(st, session.config, autoStart));
      && (forall i :: 0 <= i < |after.bars| ==>
            (after.bars[i].current <==> i == if before == 2 * n - 1 then 0 else before + 1))
      && after.cycle.value
         == Page(session, st).cycle.value + (if st.subSessionType == LongBreak then 1 else 0)
  {
    HighlightAdvances(st.subSessionType, st.pomodoroCount, session.config.sessionUntilLongBreak);
  }

  /** `handleStopSession` once confirmed: `changeStatus('completed', timeLeft)`
      with the timer's current `timeLeft`, so the elapsed seconds sent are
      what has been used of the open sub-session. */
  method StopSession(store: RecordStore, provider: Provider, detail: Option<SessionDetail>,
                     timer: LiveTimer.Timer)
    returns (sent: Option<StatusRequest>, r: Option<Result<AggregatedRow>>)
    requires store.Valid()
    modifies store
    ensures store.Valid()
    ensures sent.None? <==> detail.None? || provider.subSession.None?
    ensures sent.Some? ==>
              && sent.value.status == Completed
              && sent.value.subSessionDurationElapsed
                 == Some(FullSeconds(detail.value.row.config, provider.subSession.value.kind) - timer.timeLeft)
              && r.Some?
  {
    sent, r := provider.HandleChangeStatus(store, detail, Completed, Some(timer.timeLeft));
  }
}
