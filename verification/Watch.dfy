/** Log watching: the two maps of live sessions under concurrent starts, stops and
    process exits, and the bytes a subscriber of a session's log receives. */
module Watch {

  /** WatchManager.running and perActive; a session is named by project and id. */
  datatype Maps = Maps(running: set<(string, string)>, perActive: map<string, string>)

  /** Start's first critical section: drop the project's active session. */
  function KillPrior(m: Maps, p: string): Maps {
    if p in m.perActive then Maps(m.running - {(p, m.perActive[p])}, m.perActive - {p}) else m
  }

  /** Start's second critical section. */
  function Register(m: Maps, p: string, id: string): Maps {
    Maps(m.running + {(p, id)}, m.perActive[p := id])
  }

  /** The critical section of the goroutine that waits for the follower. */
  function Leave(m: Maps, p: string, id: string): Maps {
    Maps(m.running - {(p, id)}, if p in m.perActive && m.perActive[p] == id then m.perActive - {p} else m.perActive)
  }

  /** The maps as the manager mutates them; each method is one critical section. */
  class WatchManager {
    var running: set<(string, string)>
    var perActive: map<string, string>

    constructor ()
      ensures View() == Maps({}, map[])
    {
      running, perActive := {}, map[];
    }

    function View(): Maps
      reads this
    {
      Maps(running, perActive)
    }

    method KillPriorSession(project: string) returns (cancelled: seq<string>)
      modifies this
      ensures View() == KillPrior(old(View()), project)
      ensures cancelled == if project in old(perActive) && (project, old(perActive)[project]) in old(running)
                           then [old(perActive)[project]] else []
    {
      cancelled := [];
      if project in perActive {
        var prev := perActive[project];
        if (project, prev) in running {
          cancelled := [prev];
          running := running - {(project, prev)};
        }
        assert running == old(running) - {(project, prev)};
        perActive := perActive - {project};
      }
    }

    method RegisterSession(project: string, id: string)
      modifies this
      ensures View() == Register(old(View()), project, id)
    {
      running := running + {(project, id)};
      perActive := perActive[project := id];
    }

    method SessionExited(project: string, id: string)
      modifies this
      ensures View() == Leave(old(View()), project, id)
    {
      running := running - {(project, id)};
      if project in perActive && perActive[project] == id {
        perActive := perActive - {project};
      }
    }
  }

  // ----- every interleaving of starts and exits -----

  /** A Start call: before its kill section, between its sections, or past them. */
  datatype Phase = Upped | Killed

  datatype Start = Start(project: string, id: string, phase: Phase)

  /** `waiting` are registered sessions whose goroutine has not finished, `exited` those
      whose goroutine has, `overlapped` the projects where a Start entered its kill
      section while another was between its sections, `doubled` those where a Start
      registered its session while another one of the project was running. */
  datatype World = World(
    maps: Maps,
    starts: map<nat, Start>,
    used: set<string>,
    waiting: set<(string, string)>,
    exited: set<(string, string)>,
    overlapped: set<string>,
    doubled: set<string>)

  datatype Event =
    | Begin(who: nat, project: string, id: string)
    | Kill(who: nat)
    | Fail(who: nat)
    | Enter(who: nat)
    | Exit(session: (string, string))

  predicate Between(w: World, p: string, i: nat) {
    i in w.starts && w.starts[i].project == p && w.starts[i].phase == Killed
  }

  predicate AnyBetween(w: World, p: string) { exists i :: i in w.starts && Between(w, p, i) }

  predicate AnyRunning(m: Maps, p: string) { exists s :: s in m.running && s.0 == p }

  /** One step; session ids are random, so an id in use is not drawn again. */
  function Step(w: World, e: Event): World {
    match e
    case Begin(i, p, id) =>
      if i !in w.starts && id !in w.used then w.(starts := w.starts[i := Start(p, id, Upped)], used := w.used + {id}) else w
    case Kill(i) =>
      if i in w.starts && w.starts[i].phase == Upped then
        var p := w.starts[i].project;
        w.(maps := KillPrior(w.maps, p), starts := w.starts[i := w.starts[i].(phase := Killed)],
           overlapped := if AnyBetween(w, p) then w.overlapped + {p} else w.overlapped)
      else w
    case Fail(i) => w.(starts := w.starts - {i})
    case Enter(i) =>
      if i in w.starts && w.starts[i].phase == Killed then
        var s := w.starts[i];
        w.(maps := Register(w.maps, s.project, s.id), starts := w.starts - {i}, waiting := w.waiting + {(s.project, s.id)},
           doubled := if AnyRunning(w.maps, s.project) then w.doubled + {s.project} else w.doubled)
      else w
    case Exit(session) =>
      if session in w.waiting
      then w.(maps := Leave(w.maps, session.0, session.1), waiting := w.waiting - {session}, exited := w.exited + {session})
      else w
  }

  function Play(w: World, events: seq<Event>): World {
    if events == [] then w else Step(Play(w, events[..|events| - 1]), events[|events| - 1])
  }

  const QUIET := World(Maps({}, map[]), map[], {}, {}, {}, {}, {})

  ghost predicate Inv(w: World) {
    && (forall p :: p in w.maps.perActive ==> (p, w.maps.perActive[p]) in w.maps.running)
    && w.maps.running <= w.waiting
    && w.waiting !! w.exited
    && (forall s :: s in w.waiting || s in w.exited ==> s.1 in w.used)
    && (forall i :: i in w.starts ==> w.starts[i].id in w.used)
    && (forall i, s :: i in w.starts && (s in w.waiting || s in w.exited) ==> s.1 != w.starts[i].id)
    && (forall i, j :: i in w.starts && j in w.starts && i != j ==> w.starts[i].id != w.starts[j].id)
    && (forall p :: p !in w.overlapped ==> Alone(w, p))
    && (forall p :: p !in w.doubled ==> OnlyActive(w.maps, p))
    && w.doubled <= w.overlapped
  }

  /** No session of the project runs but the active one. */
  ghost predicate OnlyActive(m: Maps, p: string) {
    forall s :: s in m.running && s.0 == p ==> p in m.perActive && m.perActive[p] == s.1
  }

  /** A project whose starts do not overlap: one pending start at most, no running
      session beside a pending start, and only the active session running. */
  ghost predicate Alone(w: World, p: string) {
    && (forall i, j :: Between(w, p, i) && Between(w, p, j) ==> i == j)
    && (forall i, s :: Between(w, p, i) && s in w.maps.running ==> s.0 != p)
    && OnlyActive(w.maps, p)
  }

  lemma KillKeepsAlone(w: World, i: nat, p: string)
    requires Inv(w) && p !in Step(w, Kill(i)).overlapped
    ensures Alone(Step(w, Kill(i)), p)
  {
    var w' := Step(w, Kill(i));
    assert Alone(w, p);
    if i in w.starts && w.starts[i].phase == Upped {
      if w.starts[i].project == p {
        assert forall j :: !Between(w, p, j);
        assert forall j :: Between(w', p, j) ==> j == i;
        forall s | s in w'.maps.running ensures s.0 != p {
          assert s == (s.0, s.1);
        }
      } else {
        assert forall j :: Between(w', p, j) <==> Between(w, p, j);
        forall s | s in w.maps.running && s.0 == p ensures s in w'.maps.running {
        }
      }
    }
  }

  lemma EnterKeepsAlone(w: World, i: nat, p: string)
    requires Inv(w) && p !in w.overlapped
    ensures Alone(Step(w, Enter(i)), p)
  {
    var w' := Step(w, Enter(i));
    assert Alone(w, p);
    assert forall j :: Between(w', p, j) ==> Between(w, p, j);
    if i in w.starts && w.starts[i].phase == Killed && w.starts[i].project == p {
      assert Between(w, p, i);
    }
  }

  lemma OthersKeepAlone(w: World, e: Event, p: string)
    requires Inv(w) && p !in w.overlapped && (e.Begin? || e.Fail? || e.Exit?)
    ensures Alone(Step(w, e), p)
  {
    var w' := Step(w, e);
    assert Alone(w, p);
    assert forall j :: Between(w', p, j) ==> Between(w, p, j);
    forall s | s in w'.maps.running && s.0 == p ensures p in w'.maps.perActive && w'.maps.perActive[p] == s.1 {
      assert s == (s.0, s.1);
    }
  }

  lemma StepKeepsInv(w: World, e: Event)
    requires Inv(w)
    ensures Inv(Step(w, e))
  {
    hide Alone;
    var w' := Step(w, e);
    forall p | p !in w'.overlapped ensures Alone(w', p) {
      match e {
        case Kill(i) => KillKeepsAlone(w, i, p);
        case Enter(i) => EnterKeepsAlone(w, i, p);
        case _ => OthersKeepAlone(w, e, p);
      }
    }
    StepKeepsMaps(w, e);
    StepKeepsDoubled(w, e);
  }

  lemma StepKeepsDoubled(w: World, e: Event)
    requires Inv(w)
    ensures var w' := Step(w, e);
            w'.doubled <= w'.overlapped && forall p :: p !in w'.doubled ==> OnlyActive(w'.maps, p)
  {
    var w' := Step(w, e);
    if e.Enter? && e.who in w.starts && w.starts[e.who].phase == Killed {
      assert Between(w, w.starts[e.who].project, e.who);
      assert w.starts[e.who].project !in w.overlapped ==> Alone(w, w.starts[e.who].project);
    }
    hide Alone;
    forall p, s | p !in w'.doubled && s in w'.maps.running && s.0 == p
      ensures p in w'.maps.perActive && w'.maps.perActive[p] == s.1
    {
      assert OnlyActive(w.maps, p);
      assert s == (s.0, s.1);
    }
  }

  lemma StepKeepsMaps(w: World, e: Event)
    requires Inv(w)
    ensures var w' := Step(w, e);
            (forall p :: p in w'.maps.perActive ==> (p, w'.maps.perActive[p]) in w'.maps.running)
            && w'.maps.running <= w'.waiting && w'.waiting !! w'.exited
  {
    hide Alone;
  }

  lemma {:induction false} PlayKeepsInv(events: seq<Event>)
    ensures Inv(Play(QUIET, events))
  {
    hide Step;
    if events != [] {
      PlayKeepsInv(events[..|events| - 1]);
      StepKeepsInv(Play(QUIET, events[..|events| - 1]), events[|events| - 1]);
    }
  }

  /** In every interleaving the active session of a project is running, and an exited
      session is in neither map. */
  lemma MapsAgree(events: seq<Event>)
    ensures var w := Play(QUIET, events);
            && (forall p :: p in w.maps.perActive ==> (p, w.maps.perActive[p]) in w.maps.running)
            && (forall s :: s in w.exited ==>
                  s !in w.maps.running && !(s.0 in w.maps.perActive && w.maps.perActive[s.0] == s.1))
  {
    PlayKeepsInv(events);
  }

  ghost predicate Single(m: Maps, p: string) {
    forall a, b :: a in m.running && b in m.running && a.0 == p && b.0 == p ==> a == b
  }

  /** What the second section does, exactly: with the session of a start that stands
      before it, the project runs more than one session if and only if it runs one
      already; only overlapping starts get there; and while it never happened before,
      looking the project up in the active map tells. */
  lemma EnterDoubles(events: seq<Event>, i: nat, p: string)
    requires Between(Play(QUIET, events), p, i)
    ensures var w := Play(QUIET, events);
            && (!Single(Step(w, Enter(i)).maps, p) <==> AnyRunning(w.maps, p))
            && (AnyRunning(w.maps, p) ==> p in w.overlapped)
            && (p !in w.doubled ==> (AnyRunning(w.maps, p) <==> p in w.maps.perActive))
  {
    PlayKeepsInv(events);
    StepDoubles(Play(QUIET, events), i, p);
  }

  lemma StepDoubles(w: World, i: nat, p: string)
    requires Inv(w) && Between(w, p, i)
    ensures !Single(Step(w, Enter(i)).maps, p) <==> AnyRunning(w.maps, p)
    ensures AnyRunning(w.maps, p) ==> p in w.overlapped
    ensures p !in w.doubled ==> (AnyRunning(w.maps, p) <==> p in w.maps.perActive)
  {
    var mine := (p, w.starts[i].id);
    var after := Step(w, Enter(i)).maps.running;
    assert mine in after;
    if AnyRunning(w.maps, p) {
      var other :| other in w.maps.running && other.0 == p;
      assert other in after && other != mine;
      assert !Single(Step(w, Enter(i)).maps, p);
      assert !Alone(w, p);
    }
    if p in w.maps.perActive {
      assert (p, w.maps.perActive[p]) in w.maps.running;
    }
    if p !in w.doubled && AnyRunning(w.maps, p) {
      assert OnlyActive(w.maps, p);
    }
  }

  ghost predicate AlwaysSingle(events: seq<Event>, p: string) {
    forall k :: 0 <= k <= |events| ==> Single(Play(QUIET, events[..k]).maps, p)
  }

  /** One live session per project, exactly: through a whole run a project never has two
      running sessions if and only if no start of it registered beside a running one;
      starts that do not overlap cannot. */
  lemma {:induction false} OneSessionPerProject(events: seq<Event>, p: string)
    ensures AlwaysSingle(events, p) <==> p !in Play(QUIET, events).doubled
    ensures Play(QUIET, events).doubled <= Play(QUIET, events).overlapped
  {
    hide Step;
    hide Play;
    hide Single;
    hide Inv;
    PlayKeepsInv(events);
    InvMeans(Play(QUIET, events), p);
    if events == [] {
      PlayNothing();
    } else {
      var before, e := events[..|events| - 1], events[|events| - 1];
      OneSessionPerProject(before, p);
      PlayKeepsInv(before);
      PlayPrefix(events, |events| - 1);
      assert events[..|events|] == events;
      DoubledStep(Play(QUIET, before), e, p);
      assert forall k :: 0 <= k <= |before| ==> before[..k] == events[..k];
    }
  }

  lemma InvMeans(w: World, p: string)
    requires Inv(w)
    ensures w.doubled <= w.overlapped
    ensures p !in w.doubled ==> Single(w.maps, p)
  {
    if p !in w.doubled {
      assert OnlyActive(w.maps, p);
    }
  }

  lemma DoubledStep(w: World, e: Event, p: string)
    requires Inv(w)
    ensures p in w.doubled ==> p in Step(w, e).doubled
    ensures p !in w.doubled && p in Step(w, e).doubled ==> !Single(Step(w, e).maps, p)
  {
    if p !in w.doubled && p in Step(w, e).doubled {
      assert Between(w, p, e.who);
      StepDoubles(w, e.who, p);
    }
  }

  lemma PlayNothing()
    ensures Play(QUIET, []) == QUIET
    ensures forall p :: Single(QUIET.maps, p)
  {
  }

  lemma PlayPrefix(events: seq<Event>, k: nat)
    requires k < |events|
    ensures Play(QUIET, events[..k + 1]) == Step(Play(QUIET, events[..k]), events[k])
  {
    assert events[..k + 1][..k] == events[..k];
  }

  /** A start that failed never registers a session; it changes no map. */
  lemma FailedStart(w: World, i: nat)
    ensures var w' := Step(w, Fail(i));
            w'.maps == w.maps && i !in w'.starts && Step(w', Enter(i)) == w' && Step(w', Kill(i)) == w'
  {
  }

  /** Overlapping starts break it: whenever two starts of a project stand between their
      sections, entering both leaves two sessions running, and the maps name only the
      later one. */
  lemma OverlapRunsTwo(w: World, p: string, i: nat, j: nat)
    requires Inv(w) && i != j && Between(w, p, i) && Between(w, p, j)
    ensures var a, b := (p, w.starts[i].id), (p, w.starts[j].id);
            var m := Step(Step(w, Enter(i)), Enter(j)).maps;
            a != b && a in m.running && b in m.running && p in m.perActive && m.perActive[p] == b.1
            && a in KillPrior(m, p).running && Orphan(m, a)
  {
    hide Alone;
    assert w.starts[i].id != w.starts[j].id;
  }

  /** A running session that is not the active one of its project. */
  predicate Orphan(m: Maps, a: (string, string)) {
    a in m.running && !(a.0 in m.perActive && m.perActive[a.0] == a.1)
  }

  lemma OrphanStep(w: World, e: Event, a: (string, string))
    requires Inv(w) && Orphan(w.maps, a) && e != Exit(a)
    ensures Orphan(Step(w, e).maps, a)
  {
    hide Alone;
    hide OnlyActive;
    assert a == (a.0, a.1) && a in w.waiting;
  }

  /** No start ever stops such a session: it runs until its own follower exits. */
  lemma {:induction false} OrphanRunsOn(before: seq<Event>, after: seq<Event>, a: (string, string))
    requires Orphan(Play(QUIET, before).maps, a) && Exit(a) !in after
    ensures Orphan(Play(QUIET, before + after).maps, a)
  {
    hide Step;
    hide Orphan;
    if after == [] {
      assert before + after == before;
    } else {
      var n := |after| - 1;
      OrphanRunsOn(before, after[..n], a);
      assert (before + after)[..|before| + n] == before + after[..n];
      PlayKeepsInv(before + after[..n]);
      OrphanStep(Play(QUIET, before + after[..n]), after[n], a);
    }
  }

  /** Two starts that both pass their first section before either enters its second. */
  lemma BothKilled(p: string, a: string, b: string, rest: seq<Event>)
    requires a != b
    ensures var events := [Begin(0, p, a), Begin(1, p, b), Kill(0), Kill(1)] + rest;
            Play(QUIET, events[..4])
            == World(Maps({}, map[]), map[0 := Start(p, a, Killed), 1 := Start(p, b, Killed)], {a, b}, {}, {}, {p}, {})
  {
    hide Play;
    var events := [Begin(0, p, a), Begin(1, p, b), Kill(0), Kill(1)] + rest;
    BothBegun(p, a, b, events);
    OneKilled(p, a, b, events);
    var killed := Play(QUIET, events[..3]);
    assert Between(killed, p, 0);
    PlayPrefix(events, 3);
    hide Step;
    assert events[3] == Kill(1);
    SecondKill(killed);
  }

  lemma OneKilled(p: string, a: string, b: string, events: seq<Event>)
    requires |events| >= 3 && events[2] == Kill(0)
    requires Play(QUIET, events[..2]) == QUIET.(starts := map[0 := Start(p, a, Upped), 1 := Start(p, b, Upped)], used := {a, b})
    ensures Play(QUIET, events[..3]) == QUIET.(starts := map[0 := Start(p, a, Killed), 1 := Start(p, b, Upped)], used := {a, b})
  {
    hide Play;
    PlayPrefix(events, 2);
    assert forall i :: !Between(Play(QUIET, events[..2]), p, i);
  }

  lemma SecondKill(w: World)
    requires 1 in w.starts && w.starts[1].phase == Upped && Between(w, w.starts[1].project, 0)
    requires w.starts[1].project !in w.maps.perActive
    ensures Step(w, Kill(1)) == w.(starts := w.starts[1 := w.starts[1].(phase := Killed)],
                                   overlapped := w.overlapped + {w.starts[1].project})
  {
  }

  lemma BothBegun(p: string, a: string, b: string, events: seq<Event>)
    requires a != b && |events| >= 2 && events[0] == Begin(0, p, a) && events[1] == Begin(1, p, b)
    ensures Play(QUIET, events[..2]) == QUIET.(starts := map[0 := Start(p, a, Upped), 1 := Start(p, b, Upped)], used := {a, b})
  {
    hide Play;
    PlayNothing();
    assert events[..0] == [];
    PlayPrefix(events, 0);
    assert Play(QUIET, events[..1]) == QUIET.(starts := map[0 := Start(p, a, Upped)], used := {a});
    PlayPrefix(events, 1);
  }

  /** From the empty manager: both enter, and two sessions of the project run. A third
      start stops the later one only. */
  lemma OverlapHappens(p: string, a: string, b: string)
    requires a != b
    ensures var w := Play(QUIET, [Begin(0, p, a), Begin(1, p, b), Kill(0), Kill(1), Enter(0), Enter(1)]);
            && w.maps == Maps({(p, a), (p, b)}, map[p := b])
            && w.doubled == {p}
            && KillPrior(w.maps, p) == Maps({(p, a)}, map[])
  {
    hide Play;
    var events := [Begin(0, p, a), Begin(1, p, b), Kill(0), Kill(1)] + [Enter(0), Enter(1)];
    assert events == [Begin(0, p, a), Begin(1, p, b), Kill(0), Kill(1), Enter(0), Enter(1)];
    BothKilled(p, a, b, [Enter(0), Enter(1)]);
    PlayPrefix(events, 4);
    var one := Play(QUIET, events[..5]);
    assert one.maps == Maps({(p, a)}, map[p := a]) && one.starts == map[1 := Start(p, b, Killed)] && one.doubled == {};
    assert (p, a) in one.maps.running;
    PlayPrefix(events, 5);
    assert events[..6] == events;
  }

  /** An overlap alone does no harm: here the first start fails and one session is left. */
  lemma OverlapCanBeHarmless(p: string, a: string, b: string)
    requires a != b
    ensures var w := Play(QUIET, [Begin(0, p, a), Begin(1, p, b), Kill(0), Kill(1), Fail(0), Enter(1)]);
            w.maps == Maps({(p, b)}, map[p := b]) && p in w.overlapped && w.doubled == {}
  {
    hide Play;
    var events := [Begin(0, p, a), Begin(1, p, b), Kill(0), Kill(1)] + [Fail(0), Enter(1)];
    assert events == [Begin(0, p, a), Begin(1, p, b), Kill(0), Kill(1), Fail(0), Enter(1)];
    BothKilled(p, a, b, [Fail(0), Enter(1)]);
    PlayPrefix(events, 4);
    PlayPrefix(events, 5);
    assert events[..6] == events;
  }

  // ----- what a subscriber receives -----

  /** Where Stream stands: replaying the file, between ticks, copying on a tick, looking
      whether the session is alive, copying one last time, or finished. */
  datatype Reader = Replaying | Waiting | Copying | Looking | LastCopy | Finished(why: Reason)

  datatype Reason = NotRunning | SessionGone | Disconnected | IdleTooLong | WriteFailed

  /** A session's log and one subscriber. `alive`: the follower process runs; `listed`:
      the session is in the running map; `superseded`: a newer Start took it out of the
      map while its follower was still running; `wasRunning` is what LoadSession saw. */
  datatype Session = Session(
    log: seq<char>,
    alive: bool,
    listed: bool,
    superseded: bool,
    wasRunning: bool,
    reader: Reader,
    offset: nat,
    sent: seq<char>)

  datatype StreamEvent =
    | FollowerWrites(text: seq<char>) | FollowerExits | GoroutineLeaves | Supersede
    | ReadLine(n: nat) | EndOfFile | Tick | LookAlive | Disconnect | IdleTimeout | ClientGone

  function StreamStep(s: Session, e: StreamEvent): Session {
    match e
    case FollowerWrites(text) => if s.alive then s.(log := s.log + text) else s
    case FollowerExits => s.(alive := false)
    case GoroutineLeaves => if !s.alive then s.(listed := false) else s
    case Supersede => if s.listed then s.(listed := false, superseded := true) else s
    case ReadLine(n) =>
      if (s.reader.Replaying? || s.reader.Copying? || s.reader.LastCopy?) && s.offset + n <= |s.log|
      then s.(sent := s.sent + s.log[s.offset..s.offset + n], offset := s.offset + n) else s
    case EndOfFile =>
      if s.offset != |s.log| then s
      else if s.reader.Replaying? then s.(reader := if s.wasRunning then Waiting else Finished(NotRunning))
      else if s.reader.Copying? then s.(reader := Looking)
      else if s.reader.LastCopy? then s.(reader := Finished(SessionGone))
      else s
    case Tick => if s.reader.Waiting? then s.(reader := Copying) else s
    case LookAlive => if s.reader.Looking? then s.(reader := if s.listed then Waiting else LastCopy) else s
    case Disconnect => if s.reader.Waiting? then s.(reader := Finished(Disconnected)) else s
    case IdleTimeout => if s.reader.Waiting? then s.(reader := Finished(IdleTooLong)) else s
    case ClientGone =>
      if s.reader.Replaying? || s.reader.Copying? || s.reader.LastCopy? then s.(reader := Finished(WriteFailed)) else s
  }

  function StreamPlay(s: Session, events: seq<StreamEvent>): Session {
    if events == [] then s else StreamStep(StreamPlay(s, events[..|events| - 1]), events[|events| - 1])
  }

  /** A subscription opens on any log. A session read as running was still listed; one read
      as not running, or not listed any more, has seen its follower exit or been superseded.
      The exit goroutine marks the file before it leaves the map, so a session may be read
      as not running while it is still listed. */
  predicate Opens(s: Session) {
    && s.reader.Replaying? && s.offset == 0 && s.sent == []
    && (s.wasRunning ==> s.listed)
    && (!s.wasRunning || !s.listed ==> !s.alive || s.superseded)
  }

  predicate StreamInv(s: Session) {
    && s.offset <= |s.log| && s.sent == s.log[..s.offset]
    && (!s.wasRunning || !s.listed ==> !s.alive || s.superseded)
    && (s.reader.LastCopy? ==> !s.listed)
    && (s.reader.Finished? && (s.reader.why.SessionGone? || s.reader.why.NotRunning?) ==>
          !s.superseded ==> !s.alive && s.offset == |s.log|)
  }

  lemma StreamStepKeeps(s: Session, e: StreamEvent)
    requires StreamInv(s)
    ensures StreamInv(StreamStep(s, e))
  {
    if e.ReadLine? && s.offset + e.n <= |s.log| {
      assert s.sent + s.log[s.offset..s.offset + e.n] == s.log[..s.offset + e.n];
      assert s.log[..s.offset + e.n] == s.log[..s.offset] + s.log[s.offset..s.offset + e.n];
    }
    if e.FollowerWrites? {
      assert (s.log + e.text)[..s.offset] == s.log[..s.offset];
    }
  }

  lemma {:induction false} StreamPlayKeeps(s: Session, events: seq<StreamEvent>)
    requires Opens(s)
    ensures StreamInv(StreamPlay(s, events))
  {
    hide StreamStep;
    if events != [] {
      StreamPlayKeeps(s, events[..|events| - 1]);
      StreamStepKeeps(StreamPlay(s, events[..|events| - 1]), events[|events| - 1]);
    } else {
      assert s.log[..0] == [];
    }
  }

  /** A subscriber always holds a gap-free prefix of the log, and the whole log when the
      stream ends because the session's own follower exited. */
  lemma StreamIsFaithful(s: Session, events: seq<StreamEvent>)
    requires Opens(s)
    ensures var t := StreamPlay(s, events);
            && t.sent <= t.log
            && (t.reader.Finished? && (t.reader.why.SessionGone? || t.reader.why.NotRunning?) && !t.superseded ==> t.sent == t.log)
  {
    StreamPlayKeeps(s, events);
    var t := StreamPlay(s, events);
    assert t.log[..|t.log|] == t.log;
  }

  /** The tail loop catches up: one round of it sends everything logged by then, and goes on
      exactly while the session is listed. */
  lemma RoundCatchesUp(s: Session)
    requires StreamInv(s) && s.reader.Waiting?
    ensures var t := StreamPlay(s, [Tick, ReadLine(|s.log| - s.offset), EndOfFile, LookAlive]);
            && t.sent == t.log == s.log
            && t.reader == (if s.listed then Waiting else LastCopy)
  {
    var read := [Tick, ReadLine(|s.log| - s.offset)];
    var all := read + [EndOfFile] + [LookAlive];
    assert all == [Tick, ReadLine(|s.log| - s.offset), EndOfFile, LookAlive];
    StreamSnoc(s, [], Tick);
    StreamSnoc(s, [Tick], ReadLine(|s.log| - s.offset));
    assert [] + [Tick] == [Tick] && [Tick] + [ReadLine(|s.log| - s.offset)] == read;
    StreamSnoc(s, read, EndOfFile);
    StreamSnoc(s, read + [EndOfFile], LookAlive);
    hide StreamPlay;
    StreamEmpty(s);
    var copied := StreamPlay(s, read);
    assert s.log[..s.offset] + s.log[s.offset..] == s.log;
    assert copied.sent == s.log && copied.offset == |s.log|;
  }

  /** ... and after the last copy the stream ends. */
  lemma LastCopyEnds(s: Session)
    requires s.reader.LastCopy? && s.offset == |s.log|
    ensures StreamStep(s, EndOfFile).reader == Finished(SessionGone)
  {
  }

  lemma StreamEmpty(s: Session)
    ensures StreamPlay(s, []) == s
  {
  }

  lemma StreamSnoc(s: Session, events: seq<StreamEvent>, e: StreamEvent)
    ensures StreamPlay(s, events + [e]) == StreamStep(StreamPlay(s, events), e)
  {
    assert (events + [e])[..|events|] == events;
  }
}
