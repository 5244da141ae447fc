/**
 The pause protocol between a restore and the runtime agent. The two are separate processes that
 share only the pause marker, the restore journal and one request; either may die at any time.
 Every method below is one stretch of code between two awaits, so any interleaving of them can occur.
 */
module Quiesce {
  import opened Sequences

  datatype Route = Status | RestoreQuiesce | ContainersLogs | ContainersWait | Operation

  /** The routes whose invocations the agent counts. */
  predicate Tracked(route: Route) {
    !route.Status? && !route.ContainersLogs? && !route.ContainersWait?
  }

  /**
   The restore process: not restoring, about to ask the agent, waiting for its answer, answered,
   or changing the data directory.
   */
  datatype Restorer = Idle | Asking | Waiting(request: nat) | Answered(quiet: bool) | Critical

  datatype Reply = Started | Polling | Refused

  function TrackedIn(running: map<nat, Route>): set<nat> {
    set id | id in running && Tracked(running[id])
  }

  predicate OnlyQuiesce(running: map<nat, Route>) {
    forall id | id in running :: Tracked(running[id]) ==> running[id].RestoreQuiesce?
  }

  lemma TrackedAfterStart(running: map<nat, Route>, id: nat, route: Route)
    requires id !in running
    ensures TrackedIn(running[id := route]) == TrackedIn(running) + if Tracked(route) then {id} else {}
    ensures |TrackedIn(running[id := route])| == |TrackedIn(running)| + if Tracked(route) then 1 else 0
  {
    assert TrackedIn(running[id := route]) == TrackedIn(running) + if Tracked(route) then {id} else {};
    assert id !in TrackedIn(running);
  }

  lemma TrackedAfterFinish(running: map<nat, Route>, id: nat)
    requires id in running
    ensures |TrackedIn(running - {id})| == |TrackedIn(running)| - if Tracked(running[id]) then 1 else 0
  {
    assert TrackedIn(running - {id}) == TrackedIn(running) - {id};
    if !Tracked(running[id]) {
      assert TrackedIn(running) - {id} == TrackedIn(running);
    }
  }

  lemma NoneTracked(running: map<nat, Route>)
    requires |TrackedIn(running)| == 0
    ensures forall id | id in running :: !Tracked(running[id])
  {
    assert TrackedIn(running) == {};
    assert forall id | id in running :: Tracked(running[id]) ==> id in TrackedIn(running);
  }

  class Installation {
    // the agent's memory
    var up: bool
    var active: nat
    var running: map<nat, Route>
    var polling: set<nat>
    // the shared files
    var paused: bool
    var journal: bool
    // the restore process
    var restorer: Restorer
    // a quiesce has passed its zero-active check and the pause marker has been there ever since
    ghost var sealed: bool

    /** No counted operation runs but the quiesce itself, of which there is at most one. */
    predicate Quiet()
      reads this
    {
      OnlyQuiesce(running) && |TrackedIn(running)| <= 1
    }

    ghost function Now(): Snapshot
      reads this
    {
      Snapshot(up, active, running, polling, paused, journal, restorer)
    }

    ghost predicate Valid()
      reads this
    {
      && active == |TrackedIn(running)|
      && polling !! running.Keys
      && (!up ==> running == map[] && polling == {})
      && (journal ==> paused)
      && (sealed ==> paused && Quiet())
      && (!restorer.Idle? ==> paused)
      && (restorer.Waiting? && restorer.request in running ==> running[restorer.request].RestoreQuiesce?)
      && (restorer.Waiting? && restorer.request !in polling ==> Quiet())
      && (restorer == Answered(true) || restorer.Critical? ==> Quiet())
    }

    constructor ()
      ensures Valid() && Now() == Snapshot(false, 0, map[], {}, false, false, Idle)
    {
      up, active, running, polling := false, 0, map[], {};
      paused, journal, restorer, sealed := false, false, Idle, false;
      new;
      assert TrackedIn(running) == {};
    }

    /** The agent receives a request and runs the handler up to its first await. */
    method Receive(id: nat, route: Route) returns (reply: Reply)
      requires Valid() && up && id !in running && id !in polling
      requires restorer != Waiting(id)
      modifies this`active, this`running, this`polling, this`sealed
      ensures Valid()
      ensures reply.Refused? <==> !route.Status? && (route.RestoreQuiesce? != paused)
      ensures reply.Polling? <==> route.RestoreQuiesce? && paused && old(active) > 0
      ensures running == if reply.Started? then old(running)[id := route] else old(running)
      ensures polling == if reply.Polling? then old(polling) + {id} else old(polling)
      ensures active == old(active) + if reply.Started? && Tracked(route) then 1 else 0
      ensures old(Quiet()) && paused ==> Quiet()
      ensures sealed == (old(sealed) || (reply.Started? && route.RestoreQuiesce?))
    {
      if route.RestoreQuiesce? {
        if !paused {
          return Refused;
        }
        if active != 0 {
          polling := polling + {id};
          return Polling;
        }
      } else if !route.Status? && paused {
        return Refused;
      }
      Invoke(id, route);
      sealed := sealed || route.RestoreQuiesce?;
      reply := Started;
    }

    /** Count a tracked operation as active and start it. */
    method Invoke(id: nat, route: Route)
      requires active == |TrackedIn(running)| && id !in running
      modifies this`active, this`running
      ensures running == old(running)[id := route]
      ensures active == |TrackedIn(running)| == old(active) + if Tracked(route) then 1 else 0
      ensures old(active) == 0 && route.RestoreQuiesce? ==> Quiet()
      ensures !Tracked(route) && old(Quiet()) ==> Quiet()
    {
      TrackedAfterStart(running, id, route);
      if active == 0 {
        NoneTracked(running);
      }
      if Tracked(route) {
        active := active + 1;
      }
      running := running[id := route];
    }

    /** A polling quiesce request wakes up: it starts, gives up at its deadline, or polls on. */
    method Poll(id: nat, expired: bool) returns (reply: Reply)
      requires Valid() && id in polling
      modifies this`active, this`running, this`polling, this`restorer, this`sealed
      ensures Valid()
      ensures reply == if old(active) == 0 then Started else if expired then Refused else Polling
      ensures running == if reply.Started? then old(running)[id := RestoreQuiesce] else old(running)
      ensures polling == if reply.Polling? then old(polling) else old(polling) - {id}
      ensures restorer == if reply.Refused? && old(restorer) == Waiting(id) then Answered(false) else old(restorer)
      ensures active == old(active) + if reply.Started? then 1 else 0
      ensures old(Quiet()) && paused ==> Quiet()
      ensures sealed == (old(sealed) || (reply.Started? && paused))
    {
      if active != 0 && !expired {
        return Polling;
      }
      polling := polling - {id};
      if active != 0 {
        if restorer == Waiting(id) {
          restorer := Answered(false);
        }
        return Refused;
      }
      Invoke(id, RestoreQuiesce);
      sealed := sealed || paused;
      reply := Started;
    }

    /** An operation ends, with or without an error, and its answer is sent. */
    method Finish(id: nat, ok: bool)
      requires Valid() && id in running
      modifies this`active, this`running, this`restorer
      ensures Valid()
      ensures running == old(running) - {id}
      ensures active == old(active) - if Tracked(old(running)[id]) then 1 else 0
      ensures restorer == if old(restorer) == Waiting(id) then Answered(ok) else old(restorer)
      ensures old(Quiet()) ==> Quiet()
    {
      TrackedAfterFinish(running, id);
      if Tracked(running[id]) {
        active := active - 1;
      }
      running := running - {id};
      if restorer == Waiting(id) {
        restorer := Answered(ok);
      }
    }

    /** The agent dies; a restore waiting for its answer gets an error. */
    method AgentStops()
      requires Valid()
      modifies this`up, this`active, this`running, this`polling, this`restorer
      ensures Valid() && !up && running == map[] && Quiet()
      ensures restorer == if old(restorer).Waiting? then Answered(false) else old(restorer)
    {
      up, active, running, polling := false, 0, map[], {};
      assert TrackedIn(running) == {};
      if restorer.Waiting? {
        restorer := Answered(false);
      }
    }

    method AgentStarts()
      requires Valid() && !up
      modifies this`up
      ensures Valid() && up
    {
      up := true;
    }

    /** A boot with a restore to do writes the pause marker. */
    method PauseAgent()
      requires Valid() && restorer.Idle?
      modifies this`paused, this`restorer
      ensures Valid() && paused && restorer.Asking?
    {
      paused, restorer := true, Asking;
    }

    /** It then asks the agent to quiesce; without an agent to connect to, all is quiet already. */
    method AskAgent(request: nat)
      requires Valid() && restorer.Asking? && request !in running && request !in polling
      modifies this`restorer, this`active, this`running, this`polling, this`sealed
      ensures Valid()
      ensures !up ==> restorer == Answered(true) && running == old(running) && polling == old(polling)
      ensures up ==> restorer == Waiting(request)
      ensures active == old(active) + if up && old(active) == 0 then 1 else 0
      ensures up ==> if old(active) == 0
                     then running == old(running)[request := RestoreQuiesce] && polling == old(polling)
                     else running == old(running) && polling == old(polling) + {request}
    {
      if !up {
        assert TrackedIn(running) == {};
        restorer := Answered(true);
        return;
      }
      var reply := Receive(request, RestoreQuiesce);
      restorer := Waiting(request);
    }

    /** The request times out on the restore's side, though the agent may still be working on it. */
    method GiveUpWaiting()
      requires Valid() && restorer.Waiting?
      modifies this`restorer
      ensures Valid() && restorer == Answered(false)
    {
      restorer := Answered(false);
    }

    /** Go on after the agent's answer; a refusal ends the restore, and ends the pause if nothing is under way. */
    method Proceed()
      requires Valid() && restorer.Answered?
      modifies this`paused, this`restorer, this`sealed
      ensures Valid()
      ensures restorer == if old(restorer.quiet) then Critical else Idle
      ensures paused == (old(restorer.quiet) || journal)
    {
      if restorer.quiet {
        restorer := Critical;
      } else {
        if !journal {
          paused, sealed := false, false;
        }
        restorer := Idle;
      }
    }

    method WriteJournal()
      requires Valid() && restorer.Critical?
      modifies this`journal
      ensures Valid() && journal
    {
      journal := true;
    }

    method RemoveJournal()
      requires Valid() && restorer.Critical?
      modifies this`journal
      ensures Valid() && !journal
    {
      journal := false;
    }

    /** The restore returns or throws: the agent stays paused while a journal remains. */
    method Leave()
      requires Valid() && restorer.Critical?
      modifies this`paused, this`restorer, this`sealed
      ensures Valid() && restorer.Idle? && paused == journal
    {
      if !journal {
        paused, sealed := false, false;
      }
      restorer := Idle;
    }

    /** The restore process dies; only the files remain. */
    method RestorerDies()
      requires Valid()
      modifies this`restorer
      ensures Valid() && restorer.Idle?
    {
      restorer := Idle;
    }

    /** While the data directory may change, no counted operation runs except one quiesce. */
    lemma RestoreAndAgentExclude()
      requires Valid() && restorer.Critical?
      ensures paused && active <= 1
      ensures forall id, other | id in running && other in running && Tracked(running[id]) && Tracked(running[other]) ::
        id == other && running[id].RestoreQuiesce?
    {
      forall id, other | id in running && other in running && Tracked(running[id]) && Tracked(running[other])
        ensures id == other
      {
        if id != other {
          assert {id, other} <= TrackedIn(running);
          SubsetIsNoLarger({id, other}, TrackedIn(running));
        }
      }
    }
  }

  /** What may happen next anywhere in the installation. */
  datatype Event =
    | Request(id: nat, route: Route)
    | Wake(id: nat, expired: bool)
    | Complete(id: nat, ok: bool)
    | AgentDown
    | AgentUp
    | BeginRestore
    | Ask(id: nat)
    | TimeOut
    | GoOn
    | JournalWritten
    | JournalRemoved
    | EndRestore
    | RestorerDown

  /** Everything but the proof's own bookkeeping. */
  datatype Snapshot = Snapshot(
    up: bool, active: int, running: map<nat, Route>, polling: set<nat>, paused: bool, journal: bool, restorer: Restorer)

  function Weight(route: Route): int {
    if Tracked(route) then 1 else 0
  }

  function Begun(s: Snapshot, id: nat, route: Route): Snapshot {
    s.(running := s.running[id := route], active := s.active + Weight(route))
  }

  function Told(s: Snapshot, id: nat, ok: bool): Restorer {
    if s.restorer == Waiting(id) then Answered(ok) else s.restorer
  }

  /** What an event does; one that is impossible at the time does nothing. */
  function Next(s: Snapshot, e: Event): Snapshot {
    match e
    case Request(id, route) =>
      if !s.up || id in s.running || id in s.polling || s.restorer == Waiting(id) then s
      else if route.RestoreQuiesce? then
        if !s.paused then s
        else if s.active != 0 then s.(polling := s.polling + {id})
        else Begun(s, id, route)
      else if !route.Status? && s.paused then s
      else Begun(s, id, route)
    case Wake(id, expired) =>
      if id !in s.polling || (s.active != 0 && !expired) then s
      else if s.active != 0 then s.(polling := s.polling - {id}, restorer := Told(s, id, false))
      else Begun(s.(polling := s.polling - {id}), id, RestoreQuiesce)
    case Complete(id, ok) =>
      if id !in s.running then s
      else s.(running := s.running - {id}, active := s.active - Weight(s.running[id]), restorer := Told(s, id, ok))
    case AgentDown =>
      s.(up := false, active := 0, running := map[], polling := {},
         restorer := if s.restorer.Waiting? then Answered(false) else s.restorer)
    case AgentUp => s.(up := true)
    case BeginRestore => if s.restorer.Idle? then s.(paused := true, restorer := Asking) else s
    case Ask(id) =>
      if !s.restorer.Asking? || id in s.running || id in s.polling then s
      else if !s.up then s.(restorer := Answered(true))
      else if s.active != 0 then s.(polling := s.polling + {id}, restorer := Waiting(id))
      else Begun(s.(restorer := Waiting(id)), id, RestoreQuiesce)
    case TimeOut => if s.restorer.Waiting? then s.(restorer := Answered(false)) else s
    case GoOn =>
      if !s.restorer.Answered? then s
      else if s.restorer.quiet then s.(restorer := Critical)
      else s.(restorer := Idle, paused := s.journal)
    case JournalWritten => if s.restorer.Critical? then s.(journal := true) else s
    case JournalRemoved => if s.restorer.Critical? then s.(journal := false) else s
    case EndRestore => if s.restorer.Critical? then s.(restorer := Idle, paused := s.journal) else s
    case RestorerDown => s.(restorer := Idle)
  }

  function After(events: seq<Event>): Snapshot {
    if events == [] then Snapshot(false, 0, map[], {}, false, false, Idle)
    else Next(After(events[..|events| - 1]), events[|events| - 1])
  }

  predicate OfAgent(event: Event) {
    event.Request? || event.Wake? || event.Complete? || event.AgentDown? || event.AgentUp?
  }

  method HandleAgent(host: Installation, event: Event)
    requires host.Valid() && OfAgent(event)
    modifies host
    ensures host.Valid() && host.Now() == Next(old(host.Now()), event)
  {
    match event
    case Request(id, route) =>
      if host.up && id !in host.running && id !in host.polling && host.restorer != Waiting(id) {
        var reply := host.Receive(id, route);
      }
    case Wake(id, expired) => if id in host.polling { var reply := host.Poll(id, expired); }
    case Complete(id, ok) => if id in host.running { host.Finish(id, ok); }
    case AgentDown => host.AgentStops();
    case AgentUp => if !host.up { host.AgentStarts(); }
  }

  method HandleRestore(host: Installation, event: Event)
    requires host.Valid() && !OfAgent(event)
    modifies host
    ensures host.Valid() && host.Now() == Next(old(host.Now()), event)
  {
    match event
    case BeginRestore => if host.restorer.Idle? { host.PauseAgent(); }
    case Ask(id) =>
      if host.restorer.Asking? && id !in host.running && id !in host.polling { host.AskAgent(id); }
    case TimeOut => if host.restorer.Waiting? { host.GiveUpWaiting(); }
    case GoOn => if host.restorer.Answered? { host.Proceed(); }
    case JournalWritten => if host.restorer.Critical? { host.WriteJournal(); }
    case JournalRemoved => if host.restorer.Critical? { host.RemoveJournal(); }
    case EndRestore => if host.restorer.Critical? { host.Leave(); }
    case RestorerDown => host.RestorerDies();
  }

  /** Every interleaving, from a fresh installation. */
  method Interleave(events: seq<Event>) returns (host: Installation)
    ensures fresh(host) && host.Valid() && host.Now() == After(events)
    ensures host.active == |TrackedIn(host.running)|
    ensures host.journal ==> host.paused
    ensures host.sealed || host.restorer.Critical? ==>
      && host.paused && host.active <= 1
      && forall id | id in host.running && Tracked(host.running[id]) :: host.running[id].RestoreQuiesce?
  {
    host := new Installation();
    for i := 0 to |events|
      invariant fresh(host) && host.Valid() && host.Now() == After(events[..i])
    {
      assert events[..i + 1][..i] == events[..i];
      if OfAgent(events[i]) {
        HandleAgent(host, events[i]);
      } else {
        HandleRestore(host, events[i]);
      }
    }
    assert events[..|events|] == events;
    if host.restorer.Critical? {
      host.RestoreAndAgentExclude();
    }
  }
}
