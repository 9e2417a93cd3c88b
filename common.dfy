/** Shared vocabulary of the Pomodoro timer: the enum domains of the record
    store, the optional/failure wrappers, a session's timing configuration and
    the record of one finished timer segment. */
module Common {

  datatype Option<T> = None | Some(value: T) {
    function GetOr(default: T): T {
      match this
      case Some(v) => v
      case None => default
    }
  }

  /** The two failure kinds the routes surface: a referenced record that does
      not exist, and an input that fails validation. */
  datatype Error = NotFound | Invalid

  datatype Result<T> = Ok(value: T) | Err(error: Error)

  /** `type` of a sub-session: 'work' | 'short_break' | 'long_break'. */
  datatype SubSessionType = Work | ShortBreak | LongBreak

  /** `status` of a session: 'new' | 'active' | 'completed'. */
  datatype Status = New | Active | Completed

  /** The durations (minutes) and cycle length a session is created with. */
  datatype SessionConfig = SessionConfig(
    workDuration: int,
    shortBreakDuration: int,
    longBreakDuration: int,
    sessionUntilLongBreak: int)

  /** What the client relies on: every duration and the cycle length at least 1. */
  predicate PositiveConfig(c: SessionConfig) {
    c.workDuration >= 1 && c.shortBreakDuration >= 1 &&
    c.longBreakDuration >= 1 && c.sessionUntilLongBreak >= 1
  }

  /** The `{work: 'work_duration', ...}[type]` lookup. */
  function DurationMinutes(c: SessionConfig, t: SubSessionType): int {
    match t
    case Work => c.workDuration
    case ShortBreak => c.shortBreakDuration
    case LongBreak => c.longBreakDuration
  }

  /** The lookup followed by `* 60`: the full length of a segment in seconds. */
  function FullSeconds(c: SessionConfig, t: SubSessionType): (r: int)
    ensures PositiveConfig(c) ==> r >= 60
  {
    DurationMinutes(c, t) * 60
  }

  /** One finished segment as the client records it and as the batch path of
      `changeStatus` receives it: type, elapsed seconds, end stamp, completion. */
  datatype SegmentRecord = SegmentRecord(
    kind: SubSessionType,
    durationElapsed: int,
    ended: string,
    isCompleted: bool)

  /** `reduce((sum, s) => sum + s.duration_elapsed, 0)` over segment records. */
  function SumElapsed(xs: seq<SegmentRecord>): int {
    if xs == [] then 0 else SumElapsed(xs[..|xs| - 1]) + xs[|xs| - 1].durationElapsed
  }

  /** Number of records that are completed work segments. */
  function CompletedWork(xs: seq<SegmentRecord>): nat {
    if xs == [] then 0
    else CompletedWork(xs[..|xs| - 1]) + (if xs[|xs| - 1].kind == Work && xs[|xs| - 1].isCompleted then 1 else 0)
  }

  /** Newest-first order (`sort(['-created'])` over rows kept in creation order). */
  function Reverse<T>(s: seq<T>): (r: seq<T>)
    ensures |r| == |s|
    ensures forall k :: 0 <= k < |s| ==> r[k] == s[|s| - 1 - k]
  {
    if s == [] then [] else [s[|s| - 1]] + Reverse(s[..|s| - 1])
  }
}
