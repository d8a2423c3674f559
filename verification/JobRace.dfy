/** The life of one tracked job and its race with the schedule dispatcher: the job
    goroutine of jobs.go, the completion hook and one-shot reconcile of scheduler.go,
    and the run row of the schedule store, interleaved in every order. */
module JobRace {
  import opened Basics

  type Output = seq<char>

  datatype Status = Running | Completed | Failed | Started

  const MAX_OUTPUT := 1024 * 1024

  /** The last MAX_OUTPUT bytes of a text. */
  function Tail(s: Output): (t: Output)
    ensures |t| <= MAX_OUTPUT
  {
    if |s| > MAX_OUTPUT then s[|s| - MAX_OUTPUT..] else s
  }

  lemma TailAbsorbs(a: Output, b: Output)
    ensures Tail(Tail(a) + b) == Tail(a + b)
  {
    if |a| > MAX_OUTPUT {
      assert a + b == a[..|a| - MAX_OUTPUT] + (Tail(a) + b);
    }
  }

  function Concat(chunks: seq<Output>): Output {
    if chunks == [] then [] else Concat(chunks[..|chunks| - 1]) + chunks[|chunks| - 1]
  }

  lemma NothingCopied(before: Output, chunks: seq<Output>)
    requires |before| <= MAX_OUTPUT
    ensures Tail(before + Concat(chunks[..0])) == before
  {
    assert before + [] == before;
  }

  /** Appending a chunk to the tail of a stream gives the tail of the longer stream; an
      empty chunk changes nothing. */
  lemma OneMoreChunk(before: Output, chunks: seq<Output>, i: nat)
    requires i < |chunks|
    ensures Tail(Tail(before + Concat(chunks[..i])) + chunks[i]) == Tail(before + Concat(chunks[..i + 1]))
    ensures chunks[i] == [] ==> Tail(before + Concat(chunks[..i + 1])) == Tail(before + Concat(chunks[..i]))
  {
    TailAbsorbs(before + Concat(chunks[..i]), chunks[i]);
    hide Tail;
    assert chunks[..i + 1][..i] == chunks[..i];
    assert before + Concat(chunks[..i + 1]) == before + Concat(chunks[..i]) + chunks[i];
    assert chunks[i] == [] ==> before + Concat(chunks[..i]) + chunks[i] == before + Concat(chunks[..i]);
  }

  datatype Job = Job(
    status: Status,
    success: bool,
    exitCode: int,
    output: Output,
    error: string,
    ended: Option<Instant>,
    duration: string)

  const NewJob := Job(Running, false, 0, "", "", None, "")

  /** The job record that goroutines update under its lock. */
  class ActionJob {
    var job: Job

    constructor ()
      ensures job == NewJob
    {
      job := NewJob;
    }

    method AppendJobOutput(text: Output)
      modifies this
      ensures job == old(job).(output := Tail(old(job).output + text))
    {
      job := job.(output := job.output + text);
      if |job.output| > MAX_OUTPUT {
        job := job.(output := job.output[|job.output| - MAX_OUTPUT..]);
      }
    }

    /** copyJobOutput: whatever the chunking, the job keeps the tail of the stream. */
    method CopyJobOutput(chunks: seq<Output>)
      requires |job.output| <= MAX_OUTPUT
      modifies this
      ensures job == old(job).(output := Tail(old(job).output + Concat(chunks)))
    {
      var i := 0;
      NothingCopied(job.output, chunks);
      hide Tail;
      hide Concat;
      while i < |chunks|
        invariant 0 <= i <= |chunks|
        invariant job == old(job).(output := Tail(old(job).output + Concat(chunks[..i])))
      {
        OneMoreChunk(old(job).output, chunks, i);
        if |chunks[i]| > 0 {
          AppendJobOutput(chunks[i]);
        }
        i := i + 1;
      }
      assert chunks[..|chunks|] == chunks;
    }
  }

  // ----- the interleaving -----

  /** Progress of the job goroutine: `run`'s body, after the success check, after the
      deferred update, then notifying completion handlers one by one. */
  datatype Worker = Body | Judged | Ended | Notifying(next: nat)

  /** Progress of the dispatcher after the job was started. */
  datatype Dispatcher = Launched | Refused | Marked | Looked(seen: Job) | Through

  datatype Row = Row(status: Status, output: Output, error: string, ended: Option<Instant>, duration: string)

  /** The schedule's own summary columns; `ours` says last_job_id names this job. */
  datatype Last = Last(ours: bool, status: Status, error: string)

  /** `prune` jobs are settled in one update; `appended` is everything written to the
      output; `hook` is the scheduler's place among `handlers` completion handlers;
      `early` is history, see Early. */
  datatype System = System(
    prune: bool,
    handlers: nat,
    hook: nat,
    job: Job,
    appended: Output,
    worker: Worker,
    notified: seq<Job>,
    saved: Option<Job>,
    dispatcher: Dispatcher,
    row: Option<Row>,
    last: Last,
    early: Option<Instant>)

  datatype Event =
    | Append(text: Output) | SetError(error: string) | SetResult(success: bool, exitCode: int, why: Option<string>)
    | Judge | Defer(now: Instant, duration: string)
    | Pruned(ok: bool, code: int, output: Output, at: Instant, took: string)
    | Save | Notify(clock: Instant)
    | Mark(found: bool) | Look | Reconcile(clock: Instant)
    | OtherDispatch(other: Last)

  /** CompleteScheduleRun: one transaction over the row and the schedule columns. */
  function Complete(s: System, v: Job, clock: Instant): System {
    if s.row.Some? && s.row.value.status != v.status then
      s.(row := Some(Row(v.status, v.output, v.error, if v.ended.None? then Some(clock) else v.ended, v.duration)),
         last := if s.last.ours then Last(true, v.status, v.error) else s.last)
    else s
  }

  function WorkerStep(s: System, e: Event): System {
    match e
    case Append(text) =>
      if s.worker.Body? && !s.prune
      then s.(job := s.job.(output := Tail(s.job.output + text)), appended := s.appended + text) else s
    case SetError(error) =>
      if s.worker.Body? && !s.prune then s.(job := s.job.(error := error)) else s
    case SetResult(success, exitCode, why) =>
      if s.worker.Body? && !s.prune
      then s.(job := s.job.(success := success, exitCode := exitCode,
                            error := if why.Some? then why.value else s.job.error)) else s
    case Judge =>
      if s.worker.Body? && !s.prune
      then s.(worker := Judged, job := if s.job.success then s.job else s.job.(status := Failed)) else s
    case Defer(now, duration) =>
      if s.worker.Judged?
      then s.(worker := Ended,
              job := s.job.(ended := Some(now), duration := duration,
                            status := if s.job.status == Running then Completed else s.job.status)) else s
    case Pruned(ok, code, output, at, took) =>
      if s.worker.Body? && s.prune
      then s.(worker := Ended,
              job := Job(if ok then Completed else Failed, ok, code, output,
                         if ok then s.job.error else "full Docker system prune failed", Some(at), took)) else s
    case Save =>
      if s.worker.Ended? then s.(worker := Notifying(0), saved := Some(s.job)) else s
    case Notify(clock) =>
      if s.worker.Notifying? && s.worker.next < s.handlers then
        var n := s.worker.next;
        var s' := s.(worker := Notifying(n + 1), notified := s.notified + [s.job]);
        if n == s.hook then Complete(s', s.job, clock) else s'
      else s
    case _ => s
  }

  /** The reconcile settles the row from a look between the failure mark and the deferred
      update: a failed job without end time, for a row no completion has reached yet. */
  predicate Early(s: System, v: Job) {
    v.status == Failed && v.ended.None? && s.row.Some? && s.row.value.status == Started
  }

  function DispatcherStep(s: System, e: Event): System {
    match e
    case Mark(found) =>
      if !s.dispatcher.Launched? then s
      else if found
      then s.(dispatcher := Marked, row := Some(Row(Started, "", "", None, "")), last := Last(true, Started, ""))
      else s.(dispatcher := Refused)
    case Look =>
      if s.dispatcher.Marked? then s.(dispatcher := Looked(s.job)) else s
    case Reconcile(clock) =>
      if s.dispatcher.Looked? then
        var v := s.dispatcher.seen;
        var s' := s.(dispatcher := Through, early := if Early(s, v) then Some(clock) else s.early);
        if v.status != Running then Complete(s', v, clock) else s'
      else s
    case OtherDispatch(other) => s.(last := other.(ours := false))
    case _ => s
  }

  function Step(s: System, e: Event): System { DispatcherStep(WorkerStep(s, e), e) }

  function Play(s: System, events: seq<Event>): System {
    if events == [] then s else Step(Play(s, events[..|events| - 1]), events[|events| - 1])
  }

  function Begin(prune: bool, handlers: nat, hook: nat): System {
    System(prune, handlers, hook, NewJob, "", Body, [], None, Launched, None, Last(false, Started, ""), None)
  }

  // ----- the invariant -----

  predicate Terminal(j: Job) { j.status == Completed || j.status == Failed }

  /** v agrees with the job on everything the run row promises. */
  predicate SameOutcome(v: Job, j: Job) {
    v.status == j.status && v.success == j.success && v.output == j.output && v.error == j.error
  }

  predicate WorkerInv(s: System) {
    && (!s.prune ==> s.job.output == Tail(s.appended))
    && match s.worker
       case Body => s.job.status == Running && s.job.ended.None? && s.job.duration == "" && s.notified == [] && s.saved.None?
       case Judged => !s.prune && s.job.status == (if s.job.success then Running else Failed)
                      && s.job.ended.None? && s.job.duration == "" && s.notified == [] && s.saved.None?
       case Ended => s.job.status == (if s.job.success then Completed else Failed)
                     && s.job.ended.Some? && s.notified == [] && s.saved.None?
       case Notifying(n) => s.job.status == (if s.job.success then Completed else Failed)
                            && s.job.ended.Some? && s.saved == Some(s.job) && n <= s.handlers
                            && |s.notified| == n && forall i :: 0 <= i < n ==> s.notified[i] == s.job
  }

  predicate Hooked(s: System) { s.worker.Notifying? && s.worker.next > s.hook }

  /** A snapshot with a terminal status is final, up to its end time when the job
      failed and its deferred update was still to come. */
  predicate SeenInv(s: System, v: Job) {
    v.status == Running
    || (SameOutcome(v, s.job) && Terminal(v)
        && if v.ended.None? then v.status == Failed && !s.prune && v.duration == ""
           else v.ended == s.job.ended && v.duration == s.job.duration)
  }

  predicate RowInv(s: System, r: Row) {
    (r.status == Started && r.output == "" && r.error == "" && s.early.None?)
    || (Terminal(s.job) && r.status == s.job.status && r.output == s.job.output && r.error == s.job.error
        && if s.early.Some? then r.status == Failed && !s.prune && r.ended == s.early && r.duration == ""
           else s.job.ended.Some? && r.ended == s.job.ended && r.duration == s.job.duration)
  }

  predicate Inv(s: System) {
    && s.hook < s.handlers
    && WorkerInv(s)
    && (s.row.Some? <==> s.dispatcher.Marked? || s.dispatcher.Looked? || s.dispatcher.Through?)
    && (if s.row.Some? then RowInv(s, s.row.value) else s.early.None?)
    && (s.dispatcher.Looked? ==> SeenInv(s, s.dispatcher.seen))
    && (s.row.Some? && s.row.value.status == Started && Hooked(s) ==>
          s.dispatcher.Marked? || (s.dispatcher.Looked? && s.dispatcher.seen.status != Running))
    && (s.last.ours ==> s.row.Some? && s.last.status == s.row.value.status && s.last.error == s.row.value.error)
  }

  lemma CompleteKeeps(s: System, v: Job, clock: Instant)
    requires s.row.Some? && RowInv(s, s.row.value)
    requires SeenInv(s, v) && v.status != Running
    ensures var s' := Complete(s.(early := if Early(s, v) then Some(clock) else s.early), v, clock);
            s'.row.Some? && RowInv(s', s'.row.value) && s'.row.value.status != Started
  {
  }

  lemma WorkerKeepsInv(s: System, e: Event)
    requires Inv(s)
    ensures Inv(WorkerStep(s, e))
  {
    hide Tail;
    hide Complete;
    match e {
      case Notify(clock) =>
        if s.worker.Notifying? && s.worker.next < s.handlers {
          NotifyKeepsInv(s, clock);
        }
      case Append(text) =>
        TailAbsorbs(s.appended, text);
      case _ =>
    }
  }

  lemma NotifyKeepsInv(s: System, clock: Instant)
    requires Inv(s) && s.worker.Notifying? && s.worker.next < s.handlers
    ensures Inv(WorkerStep(s, Notify(clock)))
  {
    hide Tail;
    if s.worker.next == s.hook && s.row.Some? {
      CompleteKeeps(s.(worker := Notifying(s.worker.next + 1), notified := s.notified + [s.job]), s.job, clock);
    }
  }

  lemma DispatcherKeepsInv(s: System, e: Event)
    requires Inv(s)
    ensures Inv(DispatcherStep(s, e))
  {
    hide Tail;
    hide Complete;
    hide Early;
    if e.Reconcile? && s.dispatcher.Looked? {
      ReconcileKeepsInv(s, e.clock);
    }
  }

  lemma ReconcileKeepsInv(s: System, clock: Instant)
    requires Inv(s) && s.dispatcher.Looked?
    ensures Inv(DispatcherStep(s, Reconcile(clock)))
  {
    hide Tail;
    if s.dispatcher.seen.status != Running {
      CompleteKeeps(s, s.dispatcher.seen, clock);
    }
  }

  lemma StepKeepsInv(s: System, e: Event)
    requires Inv(s)
    ensures Inv(Step(s, e))
  {
    hide Inv;
    hide WorkerStep;
    hide DispatcherStep;
    WorkerKeepsInv(s, e);
    DispatcherKeepsInv(WorkerStep(s, e), e);
  }

  lemma {:induction false} PlayKeepsInv(s: System, events: seq<Event>)
    requires Inv(s)
    ensures Inv(Play(s, events))
  {
    hide Step;
    hide Inv;
    if events != [] {
      PlayKeepsInv(s, events[..|events| - 1]);
      StepKeepsInv(Play(s, events[..|events| - 1]), events[|events| - 1]);
    }
  }

  // ----- what every run guarantees -----

  /** Race closure: once the goroutine has notified its handlers and the dispatcher is
      through, the run row carries the job's final status, output and error, in every
      interleaving, and so do the schedule's own columns unless another dispatch has
      replaced them. */
  lemma RowIsFinal(prune: bool, handlers: nat, hook: nat, events: seq<Event>)
    requires hook < handlers
    ensures var s := Play(Begin(prune, handlers, hook), events);
            s.worker == Notifying(handlers) && s.dispatcher.Through? ==>
              && s.row.Some? && Terminal(s.job)
              && s.row.value.status == s.job.status
              && s.row.value.output == s.job.output
              && s.row.value.error == s.job.error
              && (s.last.ours ==> s.last.status == s.job.status && s.last.error == s.job.error)
  {
    KindIsFixed(Begin(prune, handlers, hook), events);
    PlayKeepsInv(Begin(prune, handlers, hook), events);
  }

  /** The schedule's own columns name this job from its dispatch on, until another dispatch
      of the schedule. */
  lemma {:induction false} OursUntilOther(prune: bool, handlers: nat, hook: nat, events: seq<Event>)
    requires forall i :: 0 <= i < |events| ==> !events[i].OtherDispatch?
    ensures var s := Play(Begin(prune, handlers, hook), events); s.row.Some? ==> s.last.ours
  {
    if events != [] {
      var init, e := events[..|events| - 1], events[|events| - 1];
      OursUntilOther(prune, handlers, hook, init);
      hide Step;
      OursStep(Play(Begin(prune, handlers, hook), init), e);
    }
  }

  lemma OursStep(s: System, e: Event)
    requires (s.row.Some? ==> s.last.ours) && !e.OtherDispatch?
    ensures Step(s, e).row.Some? ==> Step(s, e).last.ours
  {
    hide Tail;
    assert WorkerStep(s, e).row.Some? ==> WorkerStep(s, e).last.ours;
  }

  /** End time and duration, exactly: lost if and only if an early reconcile settled the
      row, and then the row holds that reconcile's clock and no duration. Only failed jobs
      other than prunes are exposed to it. */
  lemma TimingExactly(prune: bool, handlers: nat, hook: nat, events: seq<Event>)
    requires hook < handlers
    ensures var s := Play(Begin(prune, handlers, hook), events);
            s.worker == Notifying(handlers) && s.dispatcher.Through? ==>
              && s.row.Some? && s.job.ended.Some?
              && (if s.early.Some? then s.row.value.ended == s.early && s.row.value.duration == ""
                  else s.row.value.ended == s.job.ended && s.row.value.duration == s.job.duration)
              && (s.early.Some? ==> !prune && s.job.status == Failed)
  {
    KindIsFixed(Begin(prune, handlers, hook), events);
    PlayKeepsInv(Begin(prune, handlers, hook), events);
  }

  lemma {:induction false} KindIsFixed(s: System, events: seq<Event>)
    ensures var t := Play(s, events); t.prune == s.prune && t.handlers == s.handlers && t.hook == s.hook
  {
    if events != [] {
      KindIsFixed(s, events[..|events| - 1]);
    }
  }

  lemma SettledRowKept(s: System, e: Event)
    requires Inv(s) && s.row.Some? && s.row.value.status != Started
    ensures Step(s, e).row == s.row
  {
    hide Tail;
  }

  /** The first completion that reaches a run row is the last: no later hook or
      reconcile rewrites it. */
  lemma {:induction false} SettledRowForever(s: System, events: seq<Event>)
    requires Inv(s) && s.row.Some? && s.row.value.status != Started
    ensures Play(s, events).row == s.row
  {
    hide Step;
    if events != [] {
      PlayKeepsInv(s, events[..|events| - 1]);
      SettledRowForever(s, events[..|events| - 1]);
      SettledRowKept(Play(s, events[..|events| - 1]), events[|events| - 1]);
    }
  }

  /** An early reconcile, whatever happens afterwards: the row keeps an empty duration and
      the store's own clock. */
  lemma FailedTimingCanBeLost(handlers: nat, hook: nat, clock: Instant, rest: seq<Event>)
    requires hook < handlers
    ensures var events := [Mark(true), Judge, Look, Reconcile(clock)] + rest;
            Play(Begin(false, handlers, hook), events).row == Some(Row(Failed, "", "", Some(clock), ""))
  {
    var b := Begin(false, handlers, hook);
    var start := [Mark(true), Judge, Look, Reconcile(clock)];
    PlayFour(b, Mark(true), Judge, Look, Reconcile(clock));
    PlayAppends(b, start, rest);
    PlayKeepsInv(b, start);
    hide Play;
    hide Tail;
    var s2 := Step(Step(b, Mark(true)), Judge);
    assert s2.job.status == Failed;
    assert Step(Step(s2, Look), Reconcile(clock)).row == Some(Row(Failed, "", "", Some(clock), ""));
    SettledRowForever(Play(b, start), rest);
  }

  lemma PlayFour(s: System, a: Event, b: Event, c: Event, d: Event)
    ensures Play(s, [a, b, c, d]) == Step(Step(Step(Step(s, a), b), c), d)
  {
    hide Step;
    PlaySnoc(s, [], a);
    PlaySnoc(s, [a], b);
    PlaySnoc(s, [a, b], c);
    PlaySnoc(s, [a, b, c], d);
    assert [a, b, c] + [d] == [a, b, c, d];
    assert [a, b] + [c] == [a, b, c];
    assert [a] + [b] == [a, b];
    assert [] + [a] == [a];
  }

  lemma PlaySnoc(s: System, events: seq<Event>, e: Event)
    ensures Play(s, events + [e]) == Step(Play(s, events), e)
  {
    assert (events + [e])[..|events|] == events;
  }

  lemma {:induction false} PlayAppends(s: System, a: seq<Event>, b: seq<Event>)
    ensures Play(s, a + b) == Play(Play(s, a), b)
  {
    hide Step;
    if b == [] {
      assert a + b == a;
    } else {
      PlayAppends(s, a, b[..|b| - 1]);
      assert (a + b)[..|a + b| - 1] == a + b[..|b| - 1];
    }
  }

  lemma StepAfterTerminal(s: System, e: Event)
    requires Inv(s) && Terminal(s.job)
    ensures SameOutcome(Step(s, e).job, s.job)
  {
  }

  lemma {:induction false} TerminalForever(s: System, events: seq<Event>)
    requires Inv(s) && Terminal(s.job)
    ensures SameOutcome(Play(s, events).job, s.job)
  {
    hide Step;
    if events != [] {
      var t := Play(s, events[..|events| - 1]);
      PlayKeepsInv(s, events[..|events| - 1]);
      TerminalForever(s, events[..|events| - 1]);
      StepAfterTerminal(t, events[|events| - 1]);
    }
  }

  /** A job leaves Running once and for all: after any run, no continuation changes
      status, success, output or error of a terminal job. */
  lemma StatusSettlesOnce(prune: bool, handlers: nat, hook: nat, before: seq<Event>, after: seq<Event>)
    requires hook < handlers
    ensures var s := Play(Begin(prune, handlers, hook), before);
            var t := Play(Begin(prune, handlers, hook), before + after);
            (s.job.status == Running || Terminal(s.job))
            && (Terminal(s.job) ==> SameOutcome(t.job, s.job))
  {
    var b := Begin(prune, handlers, hook);
    PlayKeepsInv(b, before);
    PlayAppends(b, before, after);
    if Terminal(Play(b, before).job) {
      TerminalForever(Play(b, before), after);
    }
  }

  /** What handlers and readers may rely on: handlers are told once each, with the
      final job; once told or saved, completed means success; and the output is the
      last MAX_OUTPUT bytes of everything appended, in whatever order it came. */
  lemma HandlersSeeFinalJob(prune: bool, handlers: nat, hook: nat, events: seq<Event>)
    requires hook < handlers
    ensures var s := Play(Begin(prune, handlers, hook), events);
            && (forall i :: 0 <= i < |s.notified| ==> s.notified[i] == s.job && Terminal(s.job))
            && |s.notified| <= s.handlers
            && (s.worker.Notifying? ==> |s.notified| == s.worker.next && s.saved == Some(s.job))
            && (s.job.status == Completed ==> s.job.success)
            && (Terminal(s.job) && s.job.success ==> s.job.status == Completed)
            && (!s.prune ==> s.job.output == Tail(s.appended))
  {
    PlayKeepsInv(Begin(prune, handlers, hook), events);
  }

  // ----- the outcome, from what was reported -----

  /** Success and exit code of the last result reported; a job starts as a failure. */
  function LastResult(events: seq<Event>): (bool, int) {
    if events == [] then (false, 0)
    else match events[|events| - 1]
      case SetResult(success, exitCode, _) => (success, exitCode)
      case _ => LastResult(events[..|events| - 1])
  }

  /** The last error set, alone or with a result. */
  function LastError(events: seq<Event>): string {
    if events == [] then ""
    else match events[|events| - 1]
      case SetError(error) => error
      case SetResult(_, _, Some(why)) => why
      case _ => LastError(events[..|events| - 1])
  }

  /** Everything written, in order. */
  function Written(events: seq<Event>): Output {
    if events == [] then []
    else match events[|events| - 1]
      case Append(text) => Written(events[..|events| - 1]) + text
      case _ => Written(events[..|events| - 1])
  }

  /** Time and duration of the first deferred update. */
  function FirstDefer(events: seq<Event>): Option<(Instant, string)> {
    if events == [] then None
    else
      var first := FirstDefer(events[..|events| - 1]);
      match events[|events| - 1]
      case Defer(now, duration) => if first.None? then Some((now, duration)) else first
      case _ => first
  }

  /** The dispatcher never touches the job. */
  lemma StepIsTheWorkers(s: System, e: Event)
    ensures var t, u := Step(s, e), WorkerStep(s, e);
            t.job == u.job && t.worker == u.worker && t.prune == u.prune == s.prune
  {
    hide Tail;
    DispatcherLeaves(WorkerStep(s, e), e);
    hide DispatcherStep;
  }

  lemma DispatcherLeaves(s: System, e: Event)
    ensures var t := DispatcherStep(s, e); t.job == s.job && t.worker == s.worker && t.prune == s.prune
  {
  }

  /** Once the deferred update is done, the job stays as it is. */
  lemma EndedStep(s: System, e: Event)
    requires s.worker.Ended? || s.worker.Notifying?
    ensures var t := Step(s, e); t.job == s.job && t.prune == s.prune && (t.worker.Ended? || t.worker.Notifying?)
  {
    StepIsTheWorkers(s, e);
    hide Step;
    hide Tail;
  }

  function JobInBody(events: seq<Event>): Job {
    Job(Running, LastResult(events).0, LastResult(events).1, Tail(Written(events)), LastError(events), None, "")
  }

  lemma {:induction false} BodyRuns(handlers: nat, hook: nat, body: seq<Event>)
    requires forall i :: 0 <= i < |body| ==> !body[i].Judge?
    ensures var s := Play(Begin(false, handlers, hook), body);
            s.worker.Body? && !s.prune && s.job == JobInBody(body)
  {
    if body != [] {
      var n := |body| - 1;
      BodyRuns(handlers, hook, body[..n]);
      hide Play;
      BodyStep(Play(Begin(false, handlers, hook), body[..n]), body);
      PlaySnoc(Begin(false, handlers, hook), body[..n], body[n]);
      assert body[..n] + [body[n]] == body;
    }
  }

  lemma BodyStep(s: System, body: seq<Event>)
    requires body != [] && !body[|body| - 1].Judge?
    requires s.worker.Body? && !s.prune && s.job == JobInBody(body[..|body| - 1])
    ensures var t := Step(s, body[|body| - 1]); t.worker.Body? && !t.prune && t.job == JobInBody(body)
  {
    var init, e := body[..|body| - 1], body[|body| - 1];
    StepIsTheWorkers(s, e);
    hide Step;
    hide Complete;
    if e.Append? {
      TailAbsorbs(Written(init), e.text);
    }
    hide Tail;
  }

  /** What the deferred update makes of a judged job. */
  function Deferred(j: Job, first: Option<(Instant, string)>): Job {
    match first
    case None => j
    case Some((now, duration)) =>
      j.(ended := Some(now), duration := duration, status := if j.status == Running then Completed else j.status)
  }

  lemma JudgedStep(s: System, e: Event)
    requires !s.prune && !s.worker.Body?
    ensures var t := Step(s, e);
            && !t.prune && !t.worker.Body?
            && (if s.worker.Judged? && e.Defer? then t.worker.Ended? && t.job == Deferred(s.job, Some((e.now, e.duration)))
                else t.job == s.job && (t.worker.Judged? <==> s.worker.Judged?))
  {
    if s.worker.Judged? {
      StepIsTheWorkers(s, e);
      hide Step;
      hide Complete;
    } else {
      EndedStep(s, e);
    }
  }

  lemma {:induction false} JudgedRuns(s: System, rest: seq<Event>)
    requires s.worker.Judged? && !s.prune
    ensures var t := Play(s, rest);
            && !t.prune && t.job == Deferred(s.job, FirstDefer(rest))
            && (t.worker.Judged? <==> FirstDefer(rest).None?) && !t.worker.Body?
  {
    if rest != [] {
      var init, e := rest[..|rest| - 1], rest[|rest| - 1];
      JudgedRuns(s, init);
      hide Step;
      JudgedStep(Play(s, init), e);
    }
  }

  lemma JudgeEnds(s: System)
    requires s.worker.Body? && !s.prune
    ensures var t := Step(s, Judge);
            t.worker.Judged? && !t.prune && t.job == if s.job.success then s.job else s.job.(status := Failed)
  {
  }

  /** How a job ends, in every interleaving: everything about it is decided by what its body
      reported before the verdict, and by the first deferred update after it. It completes
      if and only if the last result reported was a success; with none reported it fails. */
  lemma JobOutcome(handlers: nat, hook: nat, body: seq<Event>, rest: seq<Event>)
    requires forall i :: 0 <= i < |body| ==> !body[i].Judge?
    ensures var j := Play(Begin(false, handlers, hook), body + [Judge] + rest).job;
            var first := FirstDefer(rest);
            && (j.success, j.exitCode) == LastResult(body)
            && j.error == LastError(body)
            && j.output == Tail(Written(body))
            && j.status == (if !LastResult(body).0 then Failed else if first.Some? then Completed else Running)
            && j.ended == (if first.Some? then Some(first.value.0) else None)
            && j.duration == (if first.Some? then first.value.1 else "")
  {
    var b := Begin(false, handlers, hook);
    BodyRuns(handlers, hook, body);
    PlaySnoc(b, body, Judge);
    PlayAppends(b, body + [Judge], rest);
    var s := Play(b, body + [Judge]);
    JudgeEnds(Play(b, body));
    hide Play;
    hide Step;
    hide Tail;
    hide LastResult;
    hide LastError;
    hide Written;
    JudgedRuns(s, rest);
    hide FirstDefer;
  }

  /** A job without a verdict yet is running. */
  lemma NoVerdictYet(handlers: nat, hook: nat, body: seq<Event>)
    requires forall i :: 0 <= i < |body| ==> !body[i].Judge?
    ensures Play(Begin(false, handlers, hook), body).job.status == Running
  {
    BodyRuns(handlers, hook, body);
  }

  lemma PruneStep(s: System, e: Event)
    requires s.worker.Body? && s.prune && !e.Pruned?
    ensures var t := Step(s, e); t.worker.Body? && t.prune && t.job == s.job
  {
    StepIsTheWorkers(s, e);
    hide Step;
    hide Complete;
  }

  lemma {:induction false} PruneRunning(handlers: nat, hook: nat, body: seq<Event>)
    requires forall i :: 0 <= i < |body| ==> !body[i].Pruned?
    ensures var s := Play(Begin(true, handlers, hook), body); s.worker.Body? && s.prune && s.job == NewJob
  {
    if body != [] {
      PruneRunning(handlers, hook, body[..|body| - 1]);
      hide Step;
      PruneStep(Play(Begin(true, handlers, hook), body[..|body| - 1]), body[|body| - 1]);
    }
  }

  lemma {:induction false} PrunedForever(s: System, rest: seq<Event>)
    requires s.worker.Ended? || s.worker.Notifying?
    ensures var t := Play(s, rest); (t.worker.Ended? || t.worker.Notifying?) && t.job == s.job
  {
    if rest != [] {
      PrunedForever(s, rest[..|rest| - 1]);
      hide Step;
      EndedStep(Play(s, rest[..|rest| - 1]), rest[|rest| - 1]);
    }
  }

  /** A prune ends exactly as the first report of its result says. */
  lemma PruneOutcome(handlers: nat, hook: nat, body: seq<Event>, e: Event, rest: seq<Event>)
    requires e.Pruned? && forall i :: 0 <= i < |body| ==> !body[i].Pruned?
    ensures Play(Begin(true, handlers, hook), body + [e] + rest).job
         == Job(if e.ok then Completed else Failed, e.ok, e.code, e.output,
                if e.ok then "" else "full Docker system prune failed", Some(e.at), e.took)
  {
    var b := Begin(true, handlers, hook);
    PruneRunning(handlers, hook, body);
    PlaySnoc(b, body, e);
    PlayAppends(b, body + [e], rest);
    hide Play;
    PrunedForever(Play(b, body + [e]), rest);
  }
}
