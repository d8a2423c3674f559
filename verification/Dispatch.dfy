/** Dispatching schedules: ScheduleManager.runSchedule over the schedule tables, and
    the interleaving of the ticker with RunNow calls on one schedule row. */
module Dispatch {
  import opened Basics
  import opened Cadence

  datatype Schedule = Schedule(
    id: int,
    onAgent: bool,
    action: string,
    enabled: bool,
    timing: Timing,
    nextRunAt: Instant,
    lastRunAt: Option<Instant>,
    lastJobId: string,
    lastStatus: string,
    lastError: string)

  /** One row of update_schedule_runs. */
  datatype ScheduleRun = ScheduleRun(
    scheduleId: int,
    jobId: string,
    status: string,
    output: string,
    error: string)

  datatype JobView = JobView(id: string, status: string, output: string, error: string)

  datatype Start = Started(jobId: string) | StartFailed(error: string)

  datatype Project = Project(inactive: bool, controller: bool, noUpdates: bool)

  datatype Lookup = Found(project: Project) | Missing(error: string) | LookupFailed(error: string)

  /** What the engine, the job manager, the agents and the clock answer to one call.
      `remotePolled` says that the agent's job is followed by a poller, `snapshot` is
      what jobs.Get returns after the dispatch row exists. */
  datatype World = World(
    now: Instant,
    markedAt: Instant,
    agent: Start,
    remotePolled: bool,
    prune: Start,
    lookup: Lookup,
    skipped: Start,
    job: Start,
    snapshot: Option<JobView>)

  predicate ValidJobAction(a: string) {
    a in {"check", "pull", "up", "down", "restart", "status", "update"}
  }

  /** What a dispatch turns out to be. */
  datatype Verdict =
    | Fails(error: string, disable: bool)
    | Skips(jobId: string)
    | Launches(jobId: string, reconcile: bool)

  function FromStart(s: Start, reconcile: bool): Verdict {
    match s
    case Started(id) => Launches(id, reconcile)
    case StartFailed(e) => Fails(e, false)
  }

  /** The decision of runSchedule; `action` is the trimmed lower-case text. */
  function Decide(s: Schedule, w: World): Verdict {
    var action := if s.action == "" then "update" else s.action;
    if s.timing.cadence == "interval" && s.timing.intervalMinutes < 1 then Fails("invalid interval", false)
    else if !ValidJobAction(action) && action != "prune-system-all" then Fails("invalid scheduled action", false)
    else if s.onAgent then FromStart(w.agent, !w.remotePolled)
    else if action == "prune-system-all" then FromStart(w.prune, true)
    else match w.lookup
      case Missing(e) => Fails(e, true)
      case LookupFailed(e) => Fails(e, false)
      case Found(p) =>
        if ((action == "update" || action == "check") && p.noUpdates)
           || (action == "check" && (p.inactive || p.controller)) then
          match w.skipped
          case Started(id) => Skips(id)
          case StartFailed(e) => Fails(e, false)
        else FromStart(w.job, true)
  }

  // ----- the decision, said without the code above -----

  /** The action that a schedule names; none means an update. */
  function Action(s: Schedule): string { if s.action == "" then "update" else s.action }

  predicate ScheduleAction(a: string) {
    a in ["check", "pull", "up", "down", "restart", "status", "update", "prune-system-all"]
  }

  lemma ActionsAre(a: string)
    ensures ScheduleAction(a) <==> ValidJobAction(a) || a == "prune-system-all"
  {
  }

  predicate RunsAtAll(s: Schedule) {
    (s.timing.cadence == "interval" ==> s.timing.intervalMinutes >= 1) && ScheduleAction(Action(s))
  }

  /** It concerns a project of this machine. */
  predicate OnProject(s: Schedule) { RunsAtAll(s) && !s.onAgent && Action(s) != "prune-system-all" }

  /** A project whose updates are off, or that only its own update path may check. */
  predicate Excluded(s: Schedule, p: Project) {
    (p.noUpdates && (Action(s) == "update" || Action(s) == "check")) || ((p.inactive || p.controller) && Action(s) == "check")
  }

  /** Exactly which verdict the schedule's fields and the environment's answers call for. */
  predicate Calls(s: Schedule, w: World, d: Verdict) {
    match d
    case Launches(job, reconcile) =>
      RunsAtAll(s)
      && ((s.onAgent && w.agent == Started(job) && reconcile == !w.remotePolled)
          || (!s.onAgent && Action(s) == "prune-system-all" && w.prune == Started(job) && reconcile)
          || (OnProject(s) && w.lookup.Found? && !Excluded(s, w.lookup.project) && w.job == Started(job) && reconcile))
    case Skips(job) =>
      OnProject(s) && w.lookup.Found? && Excluded(s, w.lookup.project) && w.skipped == Started(job)
    case Fails(error, true) => OnProject(s) && w.lookup == Missing(error)
    case Fails(error, false) =>
      (error == "invalid interval" && s.timing.cadence == "interval" && s.timing.intervalMinutes < 1)
      || (error == "invalid scheduled action" && !RunsAtAll(s)
          && (s.timing.cadence == "interval" ==> s.timing.intervalMinutes >= 1))
      || (RunsAtAll(s) && s.onAgent && w.agent == StartFailed(error))
      || (RunsAtAll(s) && !s.onAgent && Action(s) == "prune-system-all" && w.prune == StartFailed(error))
      || (OnProject(s) && w.lookup == LookupFailed(error))
      || (OnProject(s) && w.lookup.Found? && Excluded(s, w.lookup.project) && w.skipped == StartFailed(error))
      || (OnProject(s) && w.lookup.Found? && !Excluded(s, w.lookup.project) && w.job == StartFailed(error))
  }

  /** The decision is that verdict, and no other one is called for. */
  lemma DecidesExactly(s: Schedule, w: World, d: Verdict)
    ensures Decide(s, w) == d <==> Calls(s, w, d)
  {
    ActionsAre(Action(s));
    hide ValidJobAction;
    hide ScheduleAction;
  }

  /** What the decision protects: nothing is launched locally for a project that is gone
      or excluded from updates, nor a check of an inactive project or the controller;
      skips happen only for those, and only a missing project disables its schedule. */
  lemma DecisionIsSafe(s: Schedule, w: World)
    ensures var local := !s.onAgent && s.action != "prune-system-all";
            var update, check := s.action == "" || s.action == "update", s.action == "check";
            match Decide(s, w)
            case Launches(job, _) =>
              local ==> (w.lookup.Found? && w.job == Started(job)
                         && !(w.lookup.project.noUpdates && (update || check))
                         && !(check && (w.lookup.project.inactive || w.lookup.project.controller)))
            case Skips(job) => local && w.lookup.Found? && w.skipped == Started(job)
              && ((w.lookup.project.noUpdates && (update || check))
                  || (check && (w.lookup.project.inactive || w.lookup.project.controller)))
            case Fails(_, disable) => disable ==> local && w.lookup.Missing?
  {
  }

  function CompleteRow(r: ScheduleRun, v: JobView): ScheduleRun {
    if r.jobId == v.id && r.status != v.status
    then r.(status := v.status, output := v.output, error := v.error) else r
  }

  /** Some run row of the job still has another status. */
  predicate Unsettled(runs: seq<ScheduleRun>, v: JobView) {
    exists i :: 0 <= i < |runs| && runs[i].jobId == v.id && runs[i].status != v.status
  }

  /** update_schedules and update_schedule_runs. */
  class ScheduleStore {
    var rows: map<int, Schedule>
    var runs: seq<ScheduleRun>

    constructor ()
      ensures rows == map[] && runs == []
    {
      rows, runs := map[], [];
    }

    method ListDueSchedules(now: Instant) returns (due: set<int>)
      ensures due == set id | id in rows && rows[id].enabled && rows[id].nextRunAt <= now
    {
      due := set id | id in rows && rows[id].enabled && rows[id].nextRunAt <= now;
    }

    /** Advances the schedule and inserts its run row in one transaction. */
    method MarkScheduleDispatched(id: int, next: Instant, jobId: string, status: string, error: string, at: Instant)
      returns (ok: bool)
      modifies this
      ensures ok == (id in old(rows))
      ensures !ok ==> rows == old(rows) && runs == old(runs)
      ensures ok ==>
        rows == old(rows)[id := old(rows)[id].(nextRunAt := next, lastRunAt := Some(at), lastJobId := jobId,
                                               lastStatus := status, lastError := error)]
        && runs == old(runs) + [ScheduleRun(id, jobId, status, "", error)]
    {
      if id !in rows {
        return false;
      }
      rows := rows[id := rows[id].(nextRunAt := next, lastRunAt := Some(at), lastJobId := jobId,
                                   lastStatus := status, lastError := error)];
      runs := runs + [ScheduleRun(id, jobId, status, "", error)];
      return true;
    }

    /** Moves every run row of the job to the given status; rows that already have that
        status are left alone. Exactly when a row moved, the schedules whose last job this
        was take over status and error too. */
    method CompleteScheduleRun(v: JobView)
      modifies this
      ensures v.id == "" ==> runs == old(runs) && rows == old(rows)
      ensures v.id != "" ==> |runs| == |old(runs)| && forall i :: 0 <= i < |runs| ==>
        runs[i] == if old(runs)[i].jobId == v.id && old(runs)[i].status != v.status
                   then ScheduleRun(old(runs)[i].scheduleId, v.id, v.status, v.output, v.error) else old(runs)[i]
      ensures (forall i :: 0 <= i < |old(runs)| && old(runs)[i].jobId == v.id ==> old(runs)[i].status == v.status) ==>
        rows == old(rows)
      ensures rows.Keys == old(rows).Keys
      ensures v.id != "" && (exists i :: 0 <= i < |old(runs)| && old(runs)[i].jobId == v.id && old(runs)[i].status != v.status) ==>
        forall id :: id in rows ==>
        rows[id] == if old(rows)[id].lastJobId == v.id
                    then old(rows)[id].(lastStatus := v.status, lastError := v.error) else old(rows)[id]
    {
      if v.id == "" {
        return;
      }
      var affected := Unsettled(runs, v);
      runs := seq(|runs|, i requires 0 <= i < |runs| reads this => CompleteRow(runs[i], v));
      if affected {
        rows := map id | id in rows ::
          if rows[id].lastJobId == v.id then rows[id].(lastStatus := v.status, lastError := v.error) else rows[id];
      }
    }

    method DisableSchedule(id: int, reason: string)
      modifies this
      ensures runs == old(runs) && rows.Keys == old(rows).Keys
      ensures forall k :: k in rows && k != id ==> rows[k] == old(rows)[k]
      ensures id in rows ==> rows[id] == old(rows)[id].(enabled := false, lastStatus := "disabled", lastError := reason)
      ensures id !in rows ==> rows == old(rows)
    {
      if id in rows {
        rows := rows[id := rows[id].(enabled := false, lastStatus := "disabled", lastError := reason)];
      }
    }

    /** Records a started dispatch and, when the job already answers with a final state,
        reconciles it at once. */
    method RecordStarted(id: int, next: Instant, jobId: string, at: Instant, final: Option<JobView>) returns (ok: bool)
      requires final.Some? ==> final.value.id == jobId
      modifies this
      ensures ok == (id in old(rows))
      ensures !ok ==> rows == old(rows) && runs == old(runs)
      ensures ok ==>
        && var started := ScheduleRun(id, jobId, "started", "", "");
        && var settled := final.Some? && jobId != "" && Unsettled(old(runs) + [started], final.value);
        && |runs| == |old(runs)| + 1
        && runs[|old(runs)|] == (if settled then CompleteRow(started, final.value) else started)
        && (forall i :: 0 <= i < |old(runs)| ==>
              runs[i] == if settled then CompleteRow(old(runs)[i], final.value) else old(runs)[i])
        && id in rows
        && rows[id] == old(rows)[id].(nextRunAt := next, lastRunAt := Some(at), lastJobId := jobId,
                                      lastStatus := if settled then final.value.status else "started",
                                      lastError := if settled then final.value.error else "")
      ensures rows.Keys == old(rows).Keys
      ensures forall k :: k in rows && k != id ==> rows[k].nextRunAt == old(rows)[k].nextRunAt && rows[k].enabled == old(rows)[k].enabled
    {
      ok := MarkScheduleDispatched(id, next, jobId, "started", "", at);
      if ok && final.Some? {
        CompleteScheduleRun(final.value);
      }
    }

    /** runSchedule. Whatever path is taken, one run row is added, the schedule moves to a
        time after the clock reading and names that run's job, status and error, or its
        own disabling; no other schedule is rescheduled. */
    method RunSchedule(s: Schedule, w: World, off: int) returns (error: Option<string>)
      requires s.timing.cadence == "weekly" ==> 0 <= s.timing.dayOfWeek <= 6
      modifies this
      ensures s.id !in old(rows) ==> rows == old(rows) && runs == old(runs) && error.Some?
      ensures s.id in old(rows) ==>
        && |runs| == |old(runs)| + 1
        && runs[|old(runs)|].scheduleId == s.id
        && (forall i :: 0 <= i < |old(runs)| ==> runs[i] == old(runs)[i] || runs[i].jobId == runs[|old(runs)|].jobId)
        && (forall i :: 0 <= i < |old(runs)| ==> runs[i].scheduleId == old(runs)[i].scheduleId)
        && s.id in rows
        && rows[s.id].nextRunAt == NextScheduleRun(s.timing, s.nextRunAt, w.now, off) > w.now
        && rows[s.id].lastRunAt == Some(w.markedAt)
        && rows[s.id].enabled == (old(rows)[s.id].enabled && !(OnProject(s) && w.lookup.Missing?))
        && forall d :: Calls(s, w, d) ==>
             error.Some? == d.Fails?
             && Recorded(d, w.snapshot, s.id, old(runs), runs[|old(runs)|], rows[s.id])
      ensures rows.Keys == old(rows).Keys
      ensures forall id :: id in rows && id != s.id ==>
        rows[id].nextRunAt == old(rows)[id].nextRunAt && rows[id].enabled == old(rows)[id].enabled
    {
      var next := NextScheduleRun(s.timing, s.nextRunAt, w.now, off);
      NextScheduleRunLeast(s.timing, s.nextRunAt, w.now, off);
      hide NextScheduleRun;
      DecidesThis(s, w);
      hide Decide;
      hide Calls;
      hide OnProject;
      hide Recorded;
      error := RecordVerdict(s.id, next, Decide(s, w), w);
    }

    /** Writes down a verdict: the run row and the schedule's columns, and for a missing
        project its disabling. */
    method RecordVerdict(id: int, next: Instant, decision: Verdict, w: World) returns (error: Option<string>)
      modifies this
      ensures id !in old(rows) ==> rows == old(rows) && runs == old(runs) && error.Some?
      ensures id in old(rows) ==>
        && |runs| == |old(runs)| + 1
        && runs[|old(runs)|].scheduleId == id
        && (forall i :: 0 <= i < |old(runs)| ==> runs[i] == old(runs)[i] || runs[i].jobId == runs[|old(runs)|].jobId)
        && (forall i :: 0 <= i < |old(runs)| ==> runs[i].scheduleId == old(runs)[i].scheduleId)
        && id in rows && rows[id].nextRunAt == next && rows[id].lastRunAt == Some(w.markedAt)
        && rows[id].enabled == (old(rows)[id].enabled && !(decision.Fails? && decision.disable))
        && error.Some? == decision.Fails?
        && Recorded(decision, w.snapshot, id, old(runs), runs[|old(runs)|], rows[id])
      ensures rows.Keys == old(rows).Keys
      ensures forall k :: k in rows && k != id ==>
        rows[k].nextRunAt == old(rows)[k].nextRunAt && rows[k].enabled == old(rows)[k].enabled
    {
      hide Unsettled;
      match decision {
        case Fails(e, disable) =>
          var ok := MarkScheduleDispatched(id, next, "", "failed", e, w.markedAt);
          if disable {
            DisableSchedule(id, "disabled automatically: " + e);
          }
          error := Some(e);
        case Skips(job) =>
          var ok := MarkScheduleDispatched(id, next, job, "skipped", "", w.markedAt);
          error := if ok then None else Some("not found");
        case Launches(job, reconcile) =>
          if Final(w.snapshot, job).Some? { SettledAtOnce(w.snapshot, id, job, runs); }
          var ok := RecordStarted(id, next, job, w.markedAt, if reconcile then Final(w.snapshot, job) else None);
          error := if ok then None else Some("not found");
      }
    }
  }

  lemma DecidesThis(s: Schedule, w: World)
    ensures forall d :: Calls(s, w, d) ==> d == Decide(s, w)
    ensures Decide(s, w).Fails? && Decide(s, w).disable <==> OnProject(s) && w.lookup.Missing?
  {
    hide Decide;
    forall d | Calls(s, w, d) ensures d == Decide(s, w) {
      DecidesExactly(s, w, d);
    }
    DecidesExactly(s, w, Decide(s, w));
    if w.lookup.Missing? {
      DecidesExactly(s, w, Fails(w.lookup.error, true));
    }
  }

  /** The job's state when it is no longer running. */
  function Final(snapshot: Option<JobView>, job: string): Option<JobView> {
    if snapshot.Some? && snapshot.value.status != "running" then Some(snapshot.value.(id := job)) else None
  }

  /** The job answers right away with a state other than running. */
  predicate AnswersAtOnce(job: string, reconcile: bool, snapshot: Option<JobView>) {
    reconcile && job != "" && snapshot.Some? && snapshot.value.status != "running"
  }

  /** The run row and the schedule's columns that a dispatch leaves. A job that answers with
      a final state right away settles both. */
  ghost predicate Recorded(d: Verdict, snapshot: Option<JobView>, id: int, before: seq<ScheduleRun>, run: ScheduleRun, row: Schedule) {
    && row.lastJobId == run.jobId
    && match d
       case Fails(e, disable) =>
         && run == ScheduleRun(id, "", "failed", "", e)
         && row.lastStatus == (if disable then "disabled" else "failed")
         && row.lastError == (if disable then "disabled automatically: " + e else e)
       case Skips(job) =>
         run == ScheduleRun(id, job, "skipped", "", "") && row.lastStatus == "skipped" && row.lastError == ""
       case Launches(job, reconcile) =>
         if AnswersAtOnce(job, reconcile, snapshot) && snapshot.value.status != "started" then
           var v := snapshot.value;
           run == ScheduleRun(id, job, v.status, v.output, v.error) && row.lastStatus == v.status && row.lastError == v.error
         else
           && run == ScheduleRun(id, job, "started", "", "") && row.lastStatus == "started"
           && (!AnswersAtOnce(job, reconcile, snapshot) || (forall i :: 0 <= i < |before| ==> before[i].jobId != job) ==>
                 row.lastError == "")
  }

  lemma SettledAtOnce(snapshot: Option<JobView>, id: int, job: string, before: seq<ScheduleRun>)
    requires Final(snapshot, job).Some?
    ensures var started := ScheduleRun(id, job, "started", "", "");
            var v := Final(snapshot, job).value;
            && snapshot.Some? && snapshot.value.status != "running"
            && v == snapshot.value.(id := job)
            && (v.status != "started" ==>
                  Unsettled(before + [started], v) && CompleteRow(started, v) == ScheduleRun(id, job, v.status, v.output, v.error))
            && (v.status == "started" ==>
                  CompleteRow(started, v) == started
                  && ((forall i :: 0 <= i < |before| ==> before[i].jobId != job) ==> !Unsettled(before + [started], v)))
  {
    var started := ScheduleRun(id, job, "started", "", "");
    assert (before + [started])[|before|] == started;
  }

  // ----- one tick -----

  /** What a tick relies on when it runs one listed schedule. */
  method RunListed(store: ScheduleStore, s: Schedule, w: World, off: int)
    requires s.id in store.rows && Timed(s.timing)
    modifies store
    ensures store.rows.Keys == old(store.rows).Keys
    ensures store.rows[s.id].nextRunAt == NextScheduleRun(s.timing, s.nextRunAt, w.now, off) > w.now
    ensures forall id :: id in store.rows && id != s.id ==> store.rows[id].nextRunAt == old(store.rows)[id].nextRunAt
    ensures |store.runs| == |old(store.runs)| + 1 && store.runs[|old(store.runs)|].scheduleId == s.id
    ensures forall i :: 0 <= i < |old(store.runs)| ==> store.runs[i].scheduleId == old(store.runs)[i].scheduleId
  {
    hide NextScheduleRun;
    hide Decide;
    var err := store.RunSchedule(s, w, off);
  }

  /** The schedules in `done` have moved on past `now`, the others have kept their time. */
  ghost predicate Rescheduled(listed: map<int, Schedule>, rows: map<int, Schedule>, done: set<int>,
                              now: Instant, worlds: map<int, World>, off: int)
    requires listed.Keys <= worlds.Keys
  {
    && rows.Keys == listed.Keys && done <= listed.Keys
    && forall id :: id in rows ==>
         if id in done
         then rows[id].nextRunAt == NextScheduleRun(listed[id].timing, listed[id].nextRunAt, worlds[id].now, off) > now
         else rows[id].nextRunAt == listed[id].nextRunAt
  }

  /** One new run row for each schedule in `done`. */
  ghost predicate OneRunEach(before: seq<ScheduleRun>, runs: seq<ScheduleRun>, done: set<int>) {
    && |runs| == |before| + |done|
    && (forall i :: |before| <= i < |runs| ==> runs[i].scheduleId in done)
    && (forall i, j :: |before| <= i < j < |runs| ==> runs[i].scheduleId != runs[j].scheduleId)
  }

  lemma OneRunMore(before: seq<ScheduleRun>, runs: seq<ScheduleRun>, runs': seq<ScheduleRun>, done: set<int>, id: int)
    requires OneRunEach(before, runs, done) && id !in done
    requires |runs'| == |runs| + 1 && runs'[|runs|].scheduleId == id
    requires forall i :: 0 <= i < |runs| ==> runs'[i].scheduleId == runs[i].scheduleId
    ensures OneRunEach(before, runs', done + {id})
  {
  }

  /** tick: lists the due schedules at `now` and runs each from its listed snapshot, in
      any order; `worlds` answers each run, on clocks that do not go back. Afterwards no
      listed schedule is due any more, every listed one has exactly one new run row, and
      schedules that were not due keep their time. */
  method Tick(store: ScheduleStore, now: Instant, worlds: map<int, World>, off: int) returns (due: set<int>)
    requires store.rows.Keys <= worlds.Keys
    requires forall id :: id in store.rows ==>
      store.rows[id].id == id && Timed(store.rows[id].timing) && worlds[id].now >= now
    modifies store
    ensures due == set id | id in old(store.rows) && old(store.rows)[id].enabled && old(store.rows)[id].nextRunAt <= now
    ensures Rescheduled(old(store.rows), store.rows, due, now, worlds, off)
    ensures OneRunEach(old(store.runs), store.runs, due)
  {
    hide NextScheduleRun;
    hide OneRunEach;
    hide Rescheduled;
    var listed := store.rows;
    ghost var before := store.runs;
    due := store.ListDueSchedules(now);
    var todo := due;
    NoRunYet(before);
    NoneRescheduled(listed, now, worlds, off);
    assert due - todo == {};
    while todo != {}
      invariant todo <= due <= listed.Keys == store.rows.Keys
      invariant Rescheduled(listed, store.rows, due - todo, now, worlds, off)
      invariant OneRunEach(before, store.runs, due - todo)
      decreases todo
    {
      ghost var done, runs, rows := due - todo, store.runs, store.rows;
      var id :| id in todo;
      todo := todo - {id};
      RunListed(store, listed[id], worlds[id], off);
      assert due - todo == done + {id};
      OneRunMore(before, runs, store.runs, done, id);
      OneMoreRescheduled(listed, rows, store.rows, done, id, now, worlds, off);
    }
    assert due - {} == due;
  }

  lemma NoneRescheduled(listed: map<int, Schedule>, now: Instant, worlds: map<int, World>, off: int)
    requires listed.Keys <= worlds.Keys
    ensures Rescheduled(listed, listed, {}, now, worlds, off)
  {
    hide NextScheduleRun;
  }

  lemma OneMoreRescheduled(listed: map<int, Schedule>, rows: map<int, Schedule>, rows': map<int, Schedule>, done: set<int>,
                           id: int, now: Instant, worlds: map<int, World>, off: int)
    requires listed.Keys <= worlds.Keys && Rescheduled(listed, rows, done, now, worlds, off)
    requires rows'.Keys == rows.Keys && id in rows && worlds[id].now >= now
    requires rows'[id].nextRunAt == NextScheduleRun(listed[id].timing, listed[id].nextRunAt, worlds[id].now, off) > worlds[id].now
    requires forall k :: k in rows' && k != id ==> rows'[k].nextRunAt == rows[k].nextRunAt
    ensures Rescheduled(listed, rows', done + {id}, now, worlds, off)
  {
    hide NextScheduleRun;
  }

  lemma NoRunYet(before: seq<ScheduleRun>)
    ensures OneRunEach(before, before, {})
  {
  }

  // ----- one schedule row under the ticker and concurrent RunNow calls -----

  /** Where a runSchedule call stands: it read the row (`snap` is its NextRunAt),
      then read the clock and computed `next`, then writes. */
  datatype Call =
    | Read(snap: Instant)
    | Computed(snap: Instant, at: Instant, next: Instant)

  /** A dispatch by the ticker: the due time it answers and its clock reading. */
  datatype Fire = Fire(due: Instant, at: Instant)

  /** `stale` and `relisted` are history: the stored time was written by a RunNow and
      does not follow the last dispatch; the ticker has listed such a time. */
  datatype Row = Row(
    stored: Instant,
    clock: Instant,
    ticker: Option<Call>,
    manual: map<nat, Call>,
    fired: seq<Fire>,
    stale: bool,
    relisted: bool)

  datatype Event =
    | Advance(ns: nat)
    | TickList | TickCompute | TickMark
    | ManualRead(who: nat) | ManualCompute(who: nat) | ManualMark(who: nat)

  /** x is late enough to follow a dispatch computed at `at`. */
  predicate Follows(tm: Timing, at: Instant, x: Instant) {
    if IsCalendar(tm) then x > at else x >= at + IntervalStep(tm.intervalMinutes)
  }

  /** x follows the last recorded dispatch, if there is one. */
  predicate FollowsLast(tm: Timing, fired: seq<Fire>, x: Instant) {
    fired != [] ==> Follows(tm, fired[|fired| - 1].at, x)
  }

  /** One step; an event that is not enabled changes nothing. */
  function Step(tm: Timing, off: int, r: Row, e: Event): Row {
    match e
    case Advance(ns) => r.(clock := r.clock + ns)
    case TickList =>
      if r.ticker.None? && r.stored <= r.clock
      then r.(ticker := Some(Read(r.stored)), relisted := r.relisted || r.stale) else r
    case TickCompute =>
      if r.ticker.Some? && r.ticker.value.Read? then r.(ticker := Some(Compute(tm, off, r.ticker.value, r.clock))) else r
    case TickMark =>
      if r.ticker.Some? && r.ticker.value.Computed? then
        var c := r.ticker.value;
        r.(stored := c.next, ticker := None, fired := r.fired + [Fire(c.snap, c.at)], stale := false)
      else r
    case ManualRead(i) =>
      if i !in r.manual then r.(manual := r.manual[i := Read(r.stored)]) else r
    case ManualCompute(i) =>
      if i in r.manual && r.manual[i].Read? then r.(manual := r.manual[i := Compute(tm, off, r.manual[i], r.clock)]) else r
    case ManualMark(i) =>
      if i in r.manual && r.manual[i].Computed? then
        r.(stored := r.manual[i].next, manual := r.manual - {i}, stale := !FollowsLast(tm, r.fired, r.manual[i].next))
      else r
  }

  function Compute(tm: Timing, off: int, c: Call, now: Instant): Call
    requires c.Read?
  {
    Computed(c.snap, now, NextScheduleRun(tm, c.snap, now, off))
  }

  function Play(tm: Timing, off: int, r: Row, events: seq<Event>): Row {
    if events == [] then r
    else Step(tm, off, Play(tm, off, r, events[..|events| - 1]), events[|events| - 1])
  }

  function Fresh(stored: Instant, clock: Instant): Row {
    Row(stored, clock, None, map[], [], false, false)
  }

  predicate Timed(tm: Timing) { tm.cadence == "weekly" ==> 0 <= tm.dayOfWeek <= 6 }

  /** x was planned by the calendar; the very first due time may be anything. */
  predicate Planned(tm: Timing, off: int, x: Instant, first: Instant) {
    IsCalendar(tm) && x != first ==> Occurs(tm, off, x)
  }

  predicate CallInv(tm: Timing, off: int, r: Row, first: Instant, c: Call) {
    && Planned(tm, off, c.snap, first)
    && (c.Computed? ==>
        && c.at <= r.clock
        && Planned(tm, off, c.next, first)
        && (c.snap <= c.at ==> Follows(tm, c.at, c.next)))
  }

  ghost predicate Inv(tm: Timing, off: int, r: Row, first: Instant) {
    && r.stale == !FollowsLast(tm, r.fired, r.stored)
    && Planned(tm, off, r.stored, first)
    && (r.fired != [] ==> r.fired[|r.fired| - 1].at <= r.clock)
    && (r.ticker.Some? ==>
        && CallInv(tm, off, r, first, r.ticker.value)
        && r.ticker.value.snap <= (if r.ticker.value.Read? then r.clock else r.ticker.value.at))
    && (forall i :: i in r.manual ==> CallInv(tm, off, r, first, r.manual[i]))
    && r.relisted == !(Spaced(tm, r.fired) && (r.ticker.Some? ==> FollowsLast(tm, r.fired, r.ticker.value.snap)))
    && (forall i :: 0 <= i < |r.fired| ==> Planned(tm, off, r.fired[i].due, first) && r.fired[i].due <= r.fired[i].at)
  }

  /** Each dispatch answers a due time that lies after the previous dispatch. */
  predicate Spaced(tm: Timing, fired: seq<Fire>) {
    forall i :: 0 <= i < |fired| - 1 ==> Follows(tm, fired[i].at, fired[i + 1].due)
  }

  lemma SpacedSnoc(tm: Timing, fired: seq<Fire>, f: Fire)
    ensures Spaced(tm, fired + [f]) <==> Spaced(tm, fired) && FollowsLast(tm, fired, f.due)
  {
    hide Follows;
    var longer := fired + [f];
    if Spaced(tm, longer) {
      forall i | 0 <= i < |fired| - 1 ensures Follows(tm, fired[i].at, fired[i + 1].due) {
        assert longer[i] == fired[i] && longer[i + 1] == fired[i + 1];
      }
      if fired != [] {
        assert longer[|fired| - 1] == fired[|fired| - 1] && longer[|fired|] == f;
      }
    }
  }

  lemma NextFollows(tm: Timing, off: int, snap: Instant, now: Instant, first: Instant)
    requires Timed(tm)
    ensures var next := NextScheduleRun(tm, snap, now, off);
            Planned(tm, off, next, first)
            && (snap <= now ==> Follows(tm, now, next))
  {
    hide Occurs;
    hide NextDaily;
    hide NextWeekly;
    hide NextMonthly;
    hide IntervalStep;
    NextScheduleRunLeast(tm, snap, now, off);
  }

  lemma ComputeKeeps(tm: Timing, off: int, r: Row, first: Instant, c: Call)
    requires Timed(tm) && CallInv(tm, off, r, first, c) && c.Read?
    ensures CallInv(tm, off, r, first, Compute(tm, off, c, r.clock))
  {
    hide Occurs;
    hide NextScheduleRun;
    hide Follows;
    NextFollows(tm, off, c.snap, r.clock, first);
  }

  lemma StepKeepsInv(tm: Timing, off: int, r: Row, e: Event, first: Instant)
    requires Timed(tm) && Inv(tm, off, r, first)
    ensures Inv(tm, off, Step(tm, off, r, e), first)
  {
    hide Occurs;
    hide NextScheduleRun;
    hide Follows;
    hide Spaced;
    match e {
      case TickCompute =>
        if r.ticker.Some? && r.ticker.value.Read? { ComputeKeeps(tm, off, r, first, r.ticker.value); }
      case TickMark =>
        if r.ticker.Some? && r.ticker.value.Computed? {
          SpacedSnoc(tm, r.fired, Fire(r.ticker.value.snap, r.ticker.value.at));
        }
      case ManualCompute(i) =>
        if i in r.manual && r.manual[i].Read? { ComputeKeeps(tm, off, r, first, r.manual[i]); }
      case _ =>
    }
  }

  lemma {:induction false} PlayKeepsInv(tm: Timing, off: int, stored: Instant, clock: Instant, events: seq<Event>)
    requires Timed(tm)
    ensures Inv(tm, off, Play(tm, off, Fresh(stored, clock), events), stored)
  {
    hide Step;
    if events != [] {
      PlayKeepsInv(tm, off, stored, clock, events[..|events| - 1]);
      StepKeepsInv(tm, off, Play(tm, off, Fresh(stored, clock), events[..|events| - 1]), events[|events| - 1], stored);
    }
  }

  lemma {:induction false} SpacedTransitive(tm: Timing, fired: seq<Fire>, i: nat, j: nat)
    requires Spaced(tm, fired) && i < j < |fired|
    requires forall k :: 0 <= k < |fired| ==> fired[k].due <= fired[k].at
    ensures Follows(tm, fired[i].at, fired[j].due)
    decreases j
  {
    if i < j - 1 {
      SpacedTransitive(tm, fired, i, j - 1);
    }
  }

  /** Over every interleaving of the ticker with any number of RunNow calls on a
      monotone clock: as long as the ticker lists no stale time, it answers strictly
      increasing due times, each a real occurrence of the cadence (the first may be the
      stored one), and interval dispatches keep their distance. */
  lemma TickerFiresOnce(tm: Timing, off: int, stored: Instant, clock: Instant, events: seq<Event>, i: nat, j: nat)
    requires Timed(tm)
    requires var r := Play(tm, off, Fresh(stored, clock), events); !r.relisted && i < j < |r.fired|
    ensures var f := Play(tm, off, Fresh(stored, clock), events).fired;
            && f[i].due <= f[i].at < f[j].due <= f[j].at
            && (IsCalendar(tm) && f[j].due != stored ==> Occurs(tm, off, f[j].due))
            && (!IsCalendar(tm) ==> f[j].at >= f[i].at + IntervalStep(tm.intervalMinutes))
  {
    hide Step;
    hide Occurs;
    PlayKeepsInv(tm, off, stored, clock, events);
    SpacedTransitive(tm, Play(tm, off, Fresh(stored, clock), events).fired, i, j);
  }

  /** Nothing less will do: between two ticks, a run is spaced exactly when no stale time
      was listed; and the row is stale exactly when its time does not follow the last
      dispatch, which only a RunNow's write can bring about. */
  lemma SpacedExactly(tm: Timing, off: int, stored: Instant, clock: Instant, events: seq<Event>)
    requires Timed(tm)
    ensures var r := Play(tm, off, Fresh(stored, clock), events);
            && (r.ticker.None? ==> (Spaced(tm, r.fired) <==> !r.relisted))
            && (r.stale <==> !FollowsLast(tm, r.fired, r.stored))
            && (forall e :: Step(tm, off, r, e).stale && !r.stale ==>
                  e.ManualMark? && e.who in r.manual && r.manual[e.who].Computed?
                  && !FollowsLast(tm, r.fired, r.manual[e.who].next))
  {
    hide Inv;
    hide FollowsLast;
    PlayKeepsInv(tm, off, stored, clock, events);
    InvMeans(tm, off, Play(tm, off, Fresh(stored, clock), events), stored);
  }

  lemma InvMeans(tm: Timing, off: int, r: Row, first: Instant)
    requires Inv(tm, off, r, first)
    ensures r.ticker.None? ==> (Spaced(tm, r.fired) <==> !r.relisted)
    ensures r.stale <==> !FollowsLast(tm, r.fired, r.stored)
  {
  }

  /** One write and the tick after it: with the ticker idle and its dispatches spaced so
      far, they stay spaced exactly when the time written by the RunNow follows the last
      dispatch; `wait` takes the clock to that time. */
  lemma RunNowThenTick(tm: Timing, off: int, r: Row, i: nat, wait: nat)
    requires r.ticker.None? && Spaced(tm, r.fired)
    requires i in r.manual && r.manual[i].Computed? && r.manual[i].next <= r.clock + wait
    ensures var r' := Play(tm, off, r, [ManualMark(i), Advance(wait), TickList, TickCompute, TickMark]);
            && |r'.fired| == |r.fired| + 1
            && (Spaced(tm, r'.fired) <==> FollowsLast(tm, r.fired, r.manual[i].next))
  {
    hide Play;
    hide Spaced;
    hide FollowsLast;
    hide NextScheduleRun;
    var next, now := r.manual[i].next, r.clock + wait;
    var events := [ManualMark(i), Advance(wait), TickList, TickCompute, TickMark];
    PlayEmpty(tm, off, r);
    PlayPrefix(tm, off, r, events, 0);
    PlayPrefix(tm, off, r, events, 1);
    PlayPrefix(tm, off, r, events, 2);
    var listed := Play(tm, off, r, events[..3]);
    assert listed.ticker == Some(Read(next)) && listed.clock == now && listed.fired == r.fired;
    PlayPrefix(tm, off, r, events, 3);
    PlayPrefix(tm, off, r, events, 4);
    assert events[..5] == events;
    SpacedSnoc(tm, r.fired, Fire(next, now));
  }

  /** When a RunNow writes a time that does not follow: never when it read its clock after
      the last dispatch and the cadence is a calendar one; an interval keeps a pending time
      of the row it read, and that time decides. */
  lemma LateReadingIsSafe(tm: Timing, off: int, snap: Instant, now: Instant, last: Fire)
    requires Timed(tm) && last.at <= now
    ensures FollowsLast(tm, [last], NextScheduleRun(tm, snap, now, off))
            <==> IsCalendar(tm) || snap <= now || snap == 0 || FollowsLast(tm, [last], snap)
  {
    hide Occurs;
    hide NextDaily;
    hide NextWeekly;
    hide NextMonthly;
    hide IntervalStep;
    NextScheduleRunLeast(tm, snap, now, off);
  }

  /** A failing run: a RunNow computes its next time just before a due time and writes just
      after the ticker's dispatch. It plants that due time again, and the ticker fires it
      twice: every occurrence of every calendar cadence, and every due time of an interval. */
  lemma StraddlingFiresTwice(tm: Timing, off: int, o: Instant)
    requires Timed(tm) && (IsCalendar(tm) ==> Occurs(tm, off, o)) && (!IsCalendar(tm) ==> o != 0)
    ensures var events := [ManualRead(0), ManualCompute(0), Advance(1), TickList, TickCompute, TickMark,
                           ManualMark(0), TickList, TickCompute, TickMark];
            Play(tm, off, Fresh(o, o - 1), events).fired == [Fire(o, o), Fire(o, o)]
  {
    hide Occurs;
    hide NextScheduleRun;
    hide Play;
    var m := NextScheduleRun(tm, o, o, off);
    var rest := [ManualMark(0), TickList, TickCompute, TickMark];
    var events := [ManualRead(0), ManualCompute(0), Advance(1), TickList, TickCompute, TickMark] + rest;
    assert events == [ManualRead(0), ManualCompute(0), Advance(1), TickList, TickCompute, TickMark,
                      ManualMark(0), TickList, TickCompute, TickMark];
    var r0 := Fresh(o, o - 1);
    StraddledDispatch(tm, off, o, rest);
    PlayPrefix(tm, off, r0, events, 6);
    assert Play(tm, off, r0, events[..7]) == Row(o, o, None, map[], [Fire(o, o)], true, false);
    PlayPrefix(tm, off, r0, events, 7);
    PlayPrefix(tm, off, r0, events, 8);
    assert Play(tm, off, r0, events[..9]) == Row(o, o, Some(Computed(o, o, m)), map[], [Fire(o, o)], true, true);
    PlayPrefix(tm, off, r0, events, 9);
    assert events[..10] == events;
  }

  /** Its first half: the ticker has dispatched, and the RunNow is about to write. */
  lemma StraddledDispatch(tm: Timing, off: int, o: Instant, rest: seq<Event>)
    requires Timed(tm) && (IsCalendar(tm) ==> Occurs(tm, off, o)) && (!IsCalendar(tm) ==> o != 0)
    ensures var events := [ManualRead(0), ManualCompute(0), Advance(1), TickList, TickCompute, TickMark] + rest;
            Play(tm, off, Fresh(o, o - 1), events[..6])
            == Row(NextScheduleRun(tm, o, o, off), o, None, map[0 := Computed(o, o - 1, o)], [Fire(o, o)], false, false)
  {
    hide Occurs;
    hide NextScheduleRun;
    hide Play;
    PendingIsNext(tm, off, o);
    var events := [ManualRead(0), ManualCompute(0), Advance(1), TickList, TickCompute, TickMark] + rest;
    var r0 := Fresh(o, o - 1);
    var late := Computed(o, o - 1, o);
    PlayEmpty(tm, off, r0);
    assert events[..0] == [];
    PlayPrefix(tm, off, r0, events, 0);
    PlayPrefix(tm, off, r0, events, 1);
    assert Play(tm, off, r0, events[..2]) == Row(o, o - 1, None, map[0 := late], [], false, false);
    PlayPrefix(tm, off, r0, events, 2);
    PlayPrefix(tm, off, r0, events, 3);
    assert Play(tm, off, r0, events[..4]) == Row(o, o, Some(Read(o)), map[0 := late], [], false, false);
    PlayPrefix(tm, off, r0, events, 4);
    PlayPrefix(tm, off, r0, events, 5);
  }

  lemma PendingIsNext(tm: Timing, off: int, o: Instant)
    requires Timed(tm) && (IsCalendar(tm) ==> Occurs(tm, off, o)) && (!IsCalendar(tm) ==> o != 0)
    ensures NextScheduleRun(tm, o, o - 1, off) == o
  {
    hide Occurs;
    hide NextDaily;
    hide NextWeekly;
    hide NextMonthly;
    NextScheduleRunLeast(tm, o, o - 1, off);
  }

  lemma PlayEmpty(tm: Timing, off: int, r: Row)
    ensures Play(tm, off, r, []) == r
  {
  }

  lemma PlayPrefix(tm: Timing, off: int, r: Row, events: seq<Event>, k: nat)
    requires k < |events|
    ensures Play(tm, off, r, events[..k + 1]) == Step(tm, off, Play(tm, off, r, events[..k]), events[k])
  {
    assert events[..k + 1][..k] == events[..k];
  }
}
