/**
 The supervisor of the tunnel connector process: a queue of operations that run one after another
 meets process exits, process output and timers that arrive at any time. Queued operations are
 promise reactions, so they run before the next event unless one of them is waiting for a process
 to terminate. A process is identified by the generation in which it was spawned.

 The class changes its fields step by step. Each method is proved to take the whole state to where
 a function of `Snapshot` says, and the lemmas after the datatype say what those functions promise.
 */
module Supervisor {
  import opened Wrappers

  datatype State =
    | Stopped | Disabled | NeedsToken | Unavailable | Starting | Connected | NeedsAttention | Failed | Backoff

  datatype Failure = NoFailure | LaunchFailure | RuntimeFailure | AuthenticationFailure

  /** What the supervisor finds when it looks outside: its settings, the command, and whether spawning works. */
  datatype Outside = Outside(
    enabled: bool, tokenConfigured: bool, tokenReadable: bool, commandAvailable: bool, spawnWorks: bool)

  datatype Request = Start | Configure(enabled: bool, newToken: bool, clearToken: bool) | Restart | Shutdown

  datatype Operation = Requested(request: Request) | RestartDue(generation: nat) | AvailabilityDue

  /** What a reconciliation still has to do after it has stopped the child. */
  datatype Rest = Nothing | RecheckAvailability | Launch

  datatype Suspended = Suspended(terminating: nat, next: State, rest: Rest)

  datatype Line = Registered | AuthenticationError | OtherError | Chatter

  datatype Event =
    | Asked(request: Request)
    | RestartTimer
    | AvailabilityTimer
    | StableTimer
    | Exit(process: nat, startError: bool)
    | Wrote(process: nat, line: Line)
    | Terminated
    | Changed(now: Outside)

  /** A launch goes through: the token can be read and the command started. */
  predicate CanLaunch(o: Outside) {
    o.tokenReadable && o.spawnWorks
  }

  predicate Wanted(o: Outside) {
    o.enabled && o.tokenConfigured
  }

  /** The settings that a configuration request leaves, or none if it is refused. */
  function Reconfigured(now: Outside, request: Request): Option<Outside>
    requires request.Configure?
  {
    var configured := request.newToken || (!request.clearToken && now.tokenConfigured);
    if (request.clearToken && request.newToken) || (request.enabled && !configured)
       || (request.enabled && !request.newToken && !request.clearToken && !now.tokenReadable) then
      None
    else
      Some(now.(enabled := request.enabled, tokenConfigured := configured,
                tokenReadable := request.newToken || now.tokenReadable))
  }

  /** The whole state. `alive` are the processes whose exit has not been reported, `launches` how many were spawned. */
  datatype Snapshot = Snapshot(
    outside: Outside, child: Option<nat>, generation: nat,
    restartTimer: Option<nat>, stableTimer: Option<nat>, availabilityTimer: bool,
    shuttingDown: bool, state: State, failureClass: Failure, consecutiveFailures: nat,
    queue: seq<Operation>, suspended: Option<Suspended>, alive: set<nat>, launches: nat)
  {
    // -------------------------------------------------------------- invariants

    /** Everything but the queue and the shutdown. */
    ghost predicate Basic() {
      && (child.Some? ==> child.value == generation && restartTimer.None? && !availabilityTimer)
      && (restartTimer.Some? ==> restartTimer.value == generation && !availabilityTimer)
      && (suspended.Some? ==> child.None? && restartTimer.None? && !availabilityTimer)
      && (suspended.Some? ==> suspended.value.terminating < generation)
      && (child.Some? ==> alive == {child.value})
      && (suspended.Some? ==> alive <= {suspended.value.terminating})
      && (child.None? && suspended.None? ==> alive == {})
    }

    /** This holds between any two operations. */
    ghost predicate Sound() {
      && Basic()
      && (shuttingDown ==> child.None? && restartTimer.None? && !availabilityTimer)
      && (shuttingDown && suspended.Some? ==> suspended.value.rest.Nothing?)
    }

    /** Only the first operation can come from a timer, and then that timer is no longer armed. */
    ghost predicate Ready() {
      && Sound()
      && forall i | 0 <= i < |queue| :: queue[i].Requested? || (i == 0 && suspended.None? && restartTimer.None?)
    }

    /** Between events, an operation is only left in the queue behind a suspended one. */
    ghost predicate Valid() {
      && Sound()
      && (suspended.None? ==> queue == [])
      && (forall o | o in queue :: o.Requested?)
    }

    /** No process, no timer and no operation that could start one. */
    ghost predicate Parked() {
      child.None? && restartTimer.None? && !availabilityTimer && suspended.None? && queue == []
    }

    /**
     At most one process is alive, a held child carries the current generation with neither timer
     armed, at most one timer is armed, and after shutdown nothing is held or armed.
     */
    ghost predicate Safe() {
      && |alive| <= 1
      && (child.Some? ==> child.value == generation && restartTimer.None? && !availabilityTimer)
      && (restartTimer.None? || !availabilityTimer)
      && (shuttingDown ==> child.None? && restartTimer.None? && !availabilityTimer)
    }

    // -------------------------------------------------------------- where each step leads

    function SchedulingRestart(forGeneration: nat): Snapshot {
      if !shuttingDown && !failureClass.AuthenticationFailure? && forGeneration == generation && restartTimer.None?
         && Wanted(outside) then
        this.(restartTimer := Some(generation), consecutiveFailures := consecutiveFailures + 1, state := Backoff)
      else
        this
    }

    function SchedulingAvailabilityCheck(): Snapshot {
      this.(availabilityTimer := availabilityTimer || (!shuttingDown && Wanted(outside)))
    }

    function Spawning(): Snapshot {
      if outside.spawnWorks then
        this.(generation := generation + 1, state := Starting, child := Some(generation + 1),
              stableTimer := Some(generation + 1), alive := alive + {generation + 1}, launches := launches + 1)
      else
        this.(generation := generation + 1, failureClass := LaunchFailure, state := Failed)
          .SchedulingRestart(generation + 1)
    }

    function Launching(): Snapshot {
      var cleared := this.(restartTimer := None, availabilityTimer := false);
      if shuttingDown then this
      else if outside.tokenReadable then cleared.Spawning()
      else cleared.(state := Failed)
    }

    function FinishingStop(next: State, rest: Rest): Snapshot {
      var settled := this.(state := next,
                           failureClass := if next.Disabled? || next.Stopped? then NoFailure else failureClass);
      match rest
      case Nothing => settled
      case RecheckAvailability => settled.SchedulingAvailabilityCheck()
      case Launch => settled.Launching()
    }

    function Stopping(next: State, rest: Rest): Snapshot {
      var dropped := this.(restartTimer := None, stableTimer := None, availabilityTimer := false, child := None,
                           generation := generation + 1);
      if child.Some? then dropped.(suspended := Some(Suspended(child.value, next, rest)))
      else dropped.FinishingStop(next, rest)
    }

    function Reconciling(forceRestart: bool): Snapshot {
      if shuttingDown then this
      else if !outside.enabled then Stopping(Disabled, Nothing)
      else if !outside.tokenConfigured then Stopping(NeedsToken, Nothing)
      else if !outside.commandAvailable then Stopping(Unavailable, RecheckAvailability)
      else if forceRestart then Stopping(State.Stopped, Launch)
      else if child.None? then Launching()
      else this
    }

    function Running(operation: Operation): (after: Snapshot)
      ensures after.queue == queue
    {
      match operation
      case RestartDue(forGeneration) =>
        if shuttingDown || forGeneration != generation || child.Some? then this
        else if outside.commandAvailable then Launching()
        else this.(state := Unavailable).SchedulingAvailabilityCheck()
      case AvailabilityDue => Reconciling(false)
      case Requested(Start) => Reconciling(false)
      case Requested(Restart) => if Wanted(outside) then Reconciling(true) else this
      case Requested(Configure(_, _, _)) =>
        var now := Reconfigured(outside, operation.request);
        if now.None? then this else this.(outside := now.value, failureClass := NoFailure).Reconciling(true)
      case Requested(Shutdown) => this.(shuttingDown := true).Stopping(State.Stopped, Nothing)
    }

    /** The queue is run from its front, one operation after the other, up to one that has to wait. */
    function Draining(): Snapshot
      decreases |queue|
    {
      if suspended.Some? || queue == [] then this
      else this.(queue := queue[1..]).Running(queue[0]).Draining()
    }

    function Exiting(exited: nat, startError: bool): Snapshot {
      var less := this.(alive := alive - {exited});
      if child != Some(exited) || exited != generation then less
      else if failureClass.AuthenticationFailure? then
        less.(child := None, stableTimer := None, state := NeedsAttention)
      else
        var failure := if !failureClass.NoFailure? then failureClass
                       else if startError then LaunchFailure else RuntimeFailure;
        less.(child := None, stableTimer := None, failureClass := failure, state := Failed).SchedulingRestart(exited)
    }

    function Hearing(from: nat, line: Line): Snapshot {
      if from != generation then this
      else if line.AuthenticationError? then this.(failureClass := AuthenticationFailure)
      else if line.Registered? && !state.Connected? then this.(state := Connected, failureClass := NoFailure)
      else this
    }

    function Next(event: Event): Snapshot {
      match event
      case Asked(request) => this.(queue := queue + [Requested(request)]).Draining()
      case RestartTimer =>
        if restartTimer.None? then this
        else this.(restartTimer := None, queue := queue + [RestartDue(restartTimer.value)]).Draining()
      case AvailabilityTimer =>
        if !availabilityTimer then this
        else this.(availabilityTimer := false, queue := queue + [AvailabilityDue]).Draining()
      case StableTimer =>
        if stableTimer.None? then this
        else this.(stableTimer := None, consecutiveFailures :=
            if child == stableTimer && stableTimer.value == generation then 0 else consecutiveFailures)
      case Exit(process, startError) => if process in alive then Exiting(process, startError) else this
      case Wrote(process, line) => Hearing(process, line)
      case Terminated =>
        if suspended.None? || suspended.value.terminating in alive then this
        else this.(suspended := None).FinishingStop(suspended.value.next, suspended.value.rest).Draining()
      case Changed(now) => this.(outside := now)
    }

    // -------------------------------------------------------------- what callers can rely on

    /** A finished reconciliation that stopped at the given generation and spawn count. */
    predicate Finished(next: State, rest: Rest, stoppedAt: nat, spawned: nat) {
      match rest
      case Nothing =>
        && child.None? && restartTimer.None? && !availabilityTimer
        && generation == stoppedAt && launches == spawned && state == next
      case RecheckAvailability =>
        && child.None? && restartTimer.None? && generation == stoppedAt && launches == spawned && state == next
        && availabilityTimer == (!shuttingDown && Wanted(outside))
      case Launch =>
        && !availabilityTimer
        && (!shuttingDown && CanLaunch(outside) ==>
              child == Some(generation) && generation == stoppedAt + 1 && launches == spawned + 1)
        && (shuttingDown || !CanLaunch(outside) ==> child.None? && launches == spawned)
    }

    /** Where a reconciliation gets to that found this child, generation and spawn count. */
    predicate Reconciled(forceRestart: bool, held: Option<nat>, found: nat, spawned: nat) {
      if held.None? then
        && suspended.None?
        && if !outside.enabled then Finished(Disabled, Nothing, found + 1, spawned)
           else if !outside.tokenConfigured then Finished(NeedsToken, Nothing, found + 1, spawned)
           else if !outside.commandAvailable then Finished(Unavailable, RecheckAvailability, found + 1, spawned)
           else Finished(State.Stopped, Launch, found + (if forceRestart then 1 else 0), spawned)
      else
        && launches == spawned
        && if !outside.enabled then suspended == Some(Suspended(held.value, Disabled, Nothing))
           else if !outside.tokenConfigured then suspended == Some(Suspended(held.value, NeedsToken, Nothing))
           else if !outside.commandAvailable then
             suspended == Some(Suspended(held.value, Unavailable, RecheckAvailability))
           else if forceRestart then suspended == Some(Suspended(held.value, State.Stopped, Launch))
           else suspended.None? && child == held && generation == found
    }

    /** Neither the process nor the generation has changed. */
    predicate Untouched(held: Option<nat>, found: nat, spawned: nat) {
      child == held && generation == found && launches == spawned
    }

    /** Where a request gets to that is run in state `was` with nothing else under way. */
    predicate Served(request: Request, was: Snapshot) {
      match request
      case Start =>
        outside == was.outside && Reconciled(false, was.child, was.generation, was.launches)
      case Restart =>
        && outside == was.outside
        && if Wanted(was.outside) then Reconciled(true, was.child, was.generation, was.launches)
           else Untouched(was.child, was.generation, was.launches)
      case Configure(_, _, _) =>
        var now := Reconfigured(was.outside, request);
        if now.Some? then outside == now.value && Reconciled(true, was.child, was.generation, was.launches)
        else outside == was.outside && Untouched(was.child, was.generation, was.launches)
      case Shutdown =>
        && shuttingDown && outside == was.outside && launches == was.launches
        && child.None? && restartTimer.None? && !availabilityTimer && generation == was.generation + 1
        && suspended ==
           if was.child.Some? then Some(Suspended(was.child.value, State.Stopped, Nothing)) else None
    }

    /** One more process, in a new generation, and held, or none. */
    predicate LaunchedIf(launch: bool, was: Snapshot) {
      if launch then
        launches == was.launches + 1 && child == Some(was.generation + 1) && generation == was.generation + 1
      else
        launches == was.launches && child.None?
    }
  }

  // ---------------------------------------------------------------- single steps

  lemma LaunchingKeepsSound(s: Snapshot)
    requires s.Sound() && s.suspended.None? && s.child.None?
    ensures
      var s' := s.Launching();
      && s'.Sound() && s'.suspended.None? && s'.shuttingDown == s.shuttingDown && s'.outside == s.outside
      && (s.shuttingDown ==> s' == s)
      && (!s.shuttingDown ==> s'.LaunchedIf(CanLaunch(s.outside), s) && !s'.availabilityTimer)
  {}

  lemma FinishingStopKeepsSound(s: Snapshot, next: State, rest: Rest)
    requires s.Sound() && s.suspended.None? && s.child.None? && s.restartTimer.None? && !s.availabilityTimer
    ensures
      var s' := s.FinishingStop(next, rest);
      && s'.Sound() && s'.Finished(next, rest, s.generation, s.launches)
      && s'.suspended.None? && s'.shuttingDown == s.shuttingDown && s'.outside == s.outside
  {}

  lemma StoppingKeepsSound(s: Snapshot, next: State, rest: Rest)
    requires s.Basic() && s.suspended.None?
    requires s.shuttingDown ==> rest.Nothing?
    ensures
      var s' := s.Stopping(next, rest);
      && s'.Sound() && s'.shuttingDown == s.shuttingDown && s'.outside == s.outside
      && (if s.child.Some? then
            && s'.suspended == Some(Suspended(s.child.value, next, rest)) && s'.generation == s.generation + 1
            && s'.launches == s.launches && s'.failureClass == s.failureClass
          else
            s'.suspended.None? && s'.Finished(next, rest, s.generation + 1, s.launches))
  {
    if s.child.None? {
      var dropped := s.(restartTimer := None, stableTimer := None, availabilityTimer := false,
                        generation := s.generation + 1);
      FinishingStopKeepsSound(dropped, next, rest);
    }
  }

  lemma ReconcilingKeepsSound(s: Snapshot, forceRestart: bool)
    requires s.Sound() && s.suspended.None?
    ensures
      var s' := s.Reconciling(forceRestart);
      && s'.Sound() && s'.shuttingDown == s.shuttingDown && s'.outside == s.outside
      && if s.shuttingDown then s' == s else s'.Reconciled(forceRestart, s.child, s.generation, s.launches)
  {
    if !s.shuttingDown {
      StoppingKeepsSound(s, Disabled, Nothing);
      StoppingKeepsSound(s, NeedsToken, Nothing);
      StoppingKeepsSound(s, Unavailable, RecheckAvailability);
      StoppingKeepsSound(s, State.Stopped, Launch);
    }
  }

  /** An operation keeps the invariant, and a request is served as promised. */
  lemma RunningKeepsSound(s: Snapshot, operation: Operation)
    requires s.Sound() && s.suspended.None?
    requires operation.RestartDue? ==> s.restartTimer.None?
    ensures
      var s' := s.Running(operation);
      && s'.Sound()
      && s'.shuttingDown == (s.shuttingDown || operation == Requested(Shutdown))
      && (s.shuttingDown ==> s'.launches == s.launches)
      && (operation.Requested? && (!s.shuttingDown || operation.request.Shutdown?) ==>
            s'.Served(operation.request, s))
  {
    match operation
    case RestartDue(_) =>
      if s.child.None? {
        LaunchingKeepsSound(s);
      }
    case AvailabilityDue => ReconcilingKeepsSound(s, false);
    case Requested(Start) => ReconcilingKeepsSound(s, false);
    case Requested(Restart) => ReconcilingKeepsSound(s, true);
    case Requested(Shutdown) =>
      StoppingKeepsSound(s.(shuttingDown := true), State.Stopped, Nothing);
    case Requested(Configure(_, _, _)) =>
      var now := Reconfigured(s.outside, operation.request);
      if now.Some? {
        ReconcilingKeepsSound(s.(outside := now.value, failureClass := NoFailure), true);
      }
  }

  // ---------------------------------------------------------------- the queue

  lemma ReadyToRun(s: Snapshot)
    requires s.Ready() && s.suspended.None? && s.queue != []
    ensures s.(queue := s.queue[1..]).Running(s.queue[0]).Ready()
  {
    assert s.queue[0].Requested? || s.restartTimer.None?;
    RunningKeepsSound(s.(queue := s.queue[1..]), s.queue[0]);
    forall i | 0 <= i < |s.queue| - 1
      ensures s.queue[1..][i].Requested?
    {
      assert s.queue[i + 1].Requested?;
    }
  }

  lemma {:induction false} DrainingEndsValid(s: Snapshot)
    requires s.Ready()
    ensures s.Draining().Valid()
    ensures s.shuttingDown ==> s.Draining().shuttingDown && s.Draining().launches == s.launches
    ensures Requested(Shutdown) in s.queue ==>
      s.Draining().shuttingDown || (s.Draining().suspended.Some? && Requested(Shutdown) in s.Draining().queue)
    decreases |s.queue|
  {
    if s.suspended.None? && s.queue != [] {
      var rest := s.(queue := s.queue[1..]);
      ReadyToRun(s);
      RunningKeepsSound(rest, s.queue[0]);
      DrainingEndsValid(rest.Running(s.queue[0]));
    }
  }

  lemma LaunchingLeavesQueue(s: Snapshot, queue: seq<Operation>)
    ensures s.(queue := queue).Launching() == s.Launching().(queue := queue)
  {}

  lemma FinishingStopLeavesQueue(s: Snapshot, next: State, rest: Rest, queue: seq<Operation>)
    ensures s.(queue := queue).FinishingStop(next, rest) == s.FinishingStop(next, rest).(queue := queue)
  {
    if rest.Launch? {
      var settled := s.(state := next,
                        failureClass := if next.Disabled? || next.Stopped? then NoFailure else s.failureClass);
      LaunchingLeavesQueue(settled, queue);
    }
  }

  lemma StoppingLeavesQueue(s: Snapshot, next: State, rest: Rest, queue: seq<Operation>)
    ensures s.(queue := queue).Stopping(next, rest) == s.Stopping(next, rest).(queue := queue)
  {
    if s.child.None? {
      var dropped := s.(restartTimer := None, stableTimer := None, availabilityTimer := false, child := None,
                        generation := s.generation + 1);
      FinishingStopLeavesQueue(dropped, next, rest, queue);
    }
  }

  lemma ReconcilingLeavesQueue(s: Snapshot, forceRestart: bool, queue: seq<Operation>)
    ensures s.(queue := queue).Reconciling(forceRestart) == s.Reconciling(forceRestart).(queue := queue)
  {
    if s.shuttingDown {
    } else if !s.outside.enabled {
      StoppingLeavesQueue(s, Disabled, Nothing, queue);
    } else if !s.outside.tokenConfigured {
      StoppingLeavesQueue(s, NeedsToken, Nothing, queue);
    } else if !s.outside.commandAvailable {
      StoppingLeavesQueue(s, Unavailable, RecheckAvailability, queue);
    } else if forceRestart {
      StoppingLeavesQueue(s, State.Stopped, Launch, queue);
    } else {
      LaunchingLeavesQueue(s, queue);
    }
  }

  lemma RunningLeavesQueue(s: Snapshot, operation: Operation, queue: seq<Operation>)
    ensures s.(queue := queue).Running(operation) == s.Running(operation).(queue := queue)
  {
    match operation
    case RestartDue(_) => LaunchingLeavesQueue(s, queue);
    case AvailabilityDue => ReconcilingLeavesQueue(s, false, queue);
    case Requested(Start) => ReconcilingLeavesQueue(s, false, queue);
    case Requested(Restart) => ReconcilingLeavesQueue(s, true, queue);
    case Requested(Shutdown) =>
      StoppingLeavesQueue(s.(shuttingDown := true), State.Stopped, Nothing, queue);
    case Requested(Configure(_, _, _)) =>
      var now := Reconfigured(s.outside, operation.request);
      if now.Some? {
        ReconcilingLeavesQueue(s.(outside := now.value, failureClass := NoFailure), true, queue);
      }
  }

  /**
   Operations are served in the order in which they were queued: draining a queue is draining its
   front and then, from where that leads, what is left of the front followed by the rest.
   */
  lemma {:induction false} DrainingIsInOrder(s: Snapshot, later: seq<Operation>)
    ensures
      var front := s.Draining();
      s.(queue := s.queue + later).Draining() == front.(queue := front.queue + later).Draining()
    decreases |s.queue|
  {
    if s.suspended.None? && s.queue != [] {
      var rest := s.(queue := s.queue[1..]);
      assert (s.queue + later)[1..] == s.queue[1..] + later;
      RunningLeavesQueue(rest, s.queue[0], s.queue[1..] + later);
      DrainingIsInOrder(rest.Running(s.queue[0]), later);
    }
  }

  /** With a process held or one still to terminate, draining spawns none; otherwise it spawns at most one. */
  lemma {:induction false} DrainingLaunchesOnce(s: Snapshot)
    requires s.Ready()
    ensures s.launches <= s.Draining().launches <= s.launches + 1
    ensures s.child.Some? || s.suspended.Some? ==> s.Draining().launches == s.launches
    decreases |s.queue|
  {
    if s.suspended.None? && s.queue != [] {
      ReadyToRun(s);
      var next := s.(queue := s.queue[1..]).Running(s.queue[0]);
      assert next.launches == s.launches || (next.launches == s.launches + 1 && s.child.None? && next.child.Some?);
      assert s.child.Some? ==> next.child.Some? || next.suspended.Some?;
      DrainingLaunchesOnce(next);
    }
  }

  // ---------------------------------------------------------------- events

  lemma NextIsReady(s: Snapshot, operation: Operation)
    requires s.Valid() && (operation.Requested? || (s.suspended.None? && s.restartTimer.None?))
    ensures s.(queue := s.queue + [operation]).Ready()
  {}

  lemma TerminatedIsReady(s: Snapshot)
    requires s.Valid() && s.suspended.Some? && s.suspended.value.terminating !in s.alive
    ensures
      var s' := s.(suspended := None).FinishingStop(s.suspended.value.next, s.suspended.value.rest);
      s'.Ready() && s'.shuttingDown == s.shuttingDown && s'.queue == s.queue
      && (s.shuttingDown ==> s'.launches == s.launches)
  {
    assert s.alive == {};
    FinishingStopKeepsSound(s.(suspended := None), s.suspended.value.next, s.suspended.value.rest);
  }

  /** Every event keeps the invariant, a shutdown is final, and a queued one is never lost. */
  lemma NextKeepsValid(s: Snapshot, event: Event)
    requires s.Valid()
    ensures s.Next(event).Valid()
    ensures s.shuttingDown ==> s.Next(event).shuttingDown && s.Next(event).launches == s.launches
    ensures event == Asked(Shutdown) || Requested(Shutdown) in s.queue ==>
      s.Next(event).shuttingDown || (s.Next(event).suspended.Some? && Requested(Shutdown) in s.Next(event).queue)
  {
    match event
    case Asked(request) =>
      NextIsReady(s, Requested(request));
      DrainingEndsValid(s.(queue := s.queue + [Requested(request)]));
    case RestartTimer =>
      if s.restartTimer.Some? {
        var off := s.(restartTimer := None);
        NextIsReady(off, RestartDue(s.restartTimer.value));
        DrainingEndsValid(off.(queue := s.queue + [RestartDue(s.restartTimer.value)]));
      }
    case AvailabilityTimer =>
      if s.availabilityTimer {
        var off := s.(availabilityTimer := false);
        NextIsReady(off, AvailabilityDue);
        DrainingEndsValid(off.(queue := s.queue + [AvailabilityDue]));
      }
    case Terminated =>
      if s.suspended.Some? && s.suspended.value.terminating !in s.alive {
        TerminatedIsReady(s);
        DrainingEndsValid(s.(suspended := None).FinishingStop(s.suspended.value.next, s.suspended.value.rest));
      }
    case _ =>
  }

  /** No event spawns more than one process, and none is spawned while one is held. */
  lemma NextLaunchesOnce(s: Snapshot, event: Event)
    requires s.Valid()
    ensures s.launches <= s.Next(event).launches <= s.launches + 1
    ensures s.child.Some? ==> s.Next(event).launches == s.launches
  {
    match event
    case Asked(request) =>
      NextIsReady(s, Requested(request));
      DrainingLaunchesOnce(s.(queue := s.queue + [Requested(request)]));
    case RestartTimer =>
      if s.restartTimer.Some? {
        var off := s.(restartTimer := None);
        NextIsReady(off, RestartDue(s.restartTimer.value));
        DrainingLaunchesOnce(off.(queue := s.queue + [RestartDue(s.restartTimer.value)]));
      }
    case AvailabilityTimer =>
      if s.availabilityTimer {
        var off := s.(availabilityTimer := false);
        NextIsReady(off, AvailabilityDue);
        DrainingLaunchesOnce(off.(queue := s.queue + [AvailabilityDue]));
      }
    case Terminated =>
      if s.suspended.Some? && s.suspended.value.terminating !in s.alive {
        TerminatedIsReady(s);
        var finished := s.(suspended := None).FinishingStop(s.suspended.value.next, s.suspended.value.rest);
        assert finished.launches == s.launches || (finished.launches == s.launches + 1 && finished.child.Some?);
        DrainingLaunchesOnce(finished);
      }
    case _ =>
  }

  /** A single operation that finds nothing under way is drained by running it. */
  lemma DrainingOne(s: Snapshot, operation: Operation)
    requires s.suspended.None? && s.queue == []
    ensures s.(queue := [operation]).Draining() == s.Running(operation)
    ensures s.(queue := s.queue + [operation]).Draining() == s.Running(operation)
  {
    var one := s.(queue := [operation]);
    assert s.queue + [operation] == [operation];
    assert one.(queue := one.queue[1..]) == s;
  }

  /** Exactly when a timer that fires spawns a process. */
  lemma TimersLaunchWhen(s: Snapshot)
    requires s.Valid()
    ensures s.restartTimer.Some? ==>
      s.Next(RestartTimer).LaunchedIf(s.outside.commandAvailable && CanLaunch(s.outside), s)
    ensures s.availabilityTimer ==>
      s.Next(AvailabilityTimer)
        .LaunchedIf(Wanted(s.outside) && s.outside.commandAvailable && CanLaunch(s.outside), s)
  {
    if s.restartTimer.Some? {
      DrainingOne(s.(restartTimer := None), RestartDue(s.restartTimer.value));
    } else if s.availabilityTimer {
      DrainingOne(s.(availabilityTimer := false), AvailabilityDue);
    }
  }

  /** Exactly when a start request or the end of a stop does, and that nothing else but a request can. */
  lemma NextLaunchesWhen(s: Snapshot, event: Event)
    requires s.Valid()
    ensures event == Asked(Start) && s.suspended.None? && s.child.None? && !s.shuttingDown ==>
      s.Next(event).LaunchedIf(Wanted(s.outside) && s.outside.commandAvailable && CanLaunch(s.outside), s)
    ensures event.Terminated? && s.suspended.Some? && s.suspended.value.terminating !in s.alive && s.queue == [] ==>
      s.Next(event).LaunchedIf(s.suspended.value.rest.Launch? && CanLaunch(s.outside), s)
    ensures !event.Asked? && !event.RestartTimer? && !event.AvailabilityTimer? && !event.Terminated? ==>
      s.Next(event).launches == s.launches
  {
    if event == Asked(Start) && s.suspended.None? {
      DrainingOne(s, Requested(Start));
    }
  }

  /** Nothing but a request can wake a parked supervisor, and a shutdown does not. */
  lemma ParkedUntilAsked(s: Snapshot, event: Event)
    requires s.Valid() && s.Parked()
    requires event.Asked? ==> event.request.Shutdown?
    ensures s.Next(event).Parked() && s.Next(event).launches == s.launches
  {
    if event.Asked? {
      DrainingOne(s, Requested(event.request));
    }
  }

  /** What becomes of the failure class and the timers when the current child exits. */
  lemma ExitingMeans(s: Snapshot, exited: nat, startError: bool)
    requires s.Valid() && exited in s.alive
    ensures
      var s' := s.Exiting(exited, startError);
      s'.Valid() &&
      if s.child != Some(exited) then s' == s.(alive := s.alive - {exited})
      else
        && s'.generation == s.generation && s'.launches == s.launches
        && s'.failureClass == (if !s.failureClass.NoFailure? then s.failureClass
                               else if startError then LaunchFailure else RuntimeFailure)
        && (s'.failureClass.AuthenticationFailure? ==> s'.Parked() && s'.state.NeedsAttention?)
        && (!s'.failureClass.AuthenticationFailure? && Wanted(s.outside) ==> s'.restartTimer == Some(s.generation))
  {}

  /** An authentication failure parks the supervisor. */
  lemma AuthenticationFailureParks(s: Snapshot, process: nat, startError: bool)
    requires s.Valid() && s.child == Some(process) && s.failureClass.AuthenticationFailure?
    ensures s.Next(Exit(process, startError)).Parked()
    ensures s.Next(Exit(process, startError)).state.NeedsAttention?
  {}

  lemma ValidIsSafe(s: Snapshot)
    requires s.Valid()
    ensures s.Safe()
  {
    if s.suspended.Some? {
      assert s.alive == {} || s.alive == {s.suspended.value.terminating};
    }
  }

  // ---------------------------------------------------------------- the manager

  class Manager {
    var outside: Outside
    var child: Option<nat>
    var generation: nat
    var restartTimer: Option<nat>
    var stableTimer: Option<nat>
    var availabilityTimer: bool
    var shuttingDown: bool
    var state: State
    var failureClass: Failure
    var consecutiveFailures: nat
    var queue: seq<Operation>
    var suspended: Option<Suspended>
    var alive: set<nat>
    var launches: nat

    ghost function Seen(): Snapshot
      reads this
    {
      Snapshot(outside, child, generation, restartTimer, stableTimer, availabilityTimer, shuttingDown, state,
               failureClass, consecutiveFailures, queue, suspended, alive, launches)
    }

    ghost predicate Valid()
      reads this
    {
      Seen().Valid()
    }

    constructor (outside: Outside)
      ensures Seen() ==
        Snapshot(outside, None, 0, None, None, false, false, State.Stopped, NoFailure, 0, [], None, {}, 0)
    {
      this.outside := outside;
      child, generation, restartTimer, stableTimer, availabilityTimer := None, 0, None, None, false;
      shuttingDown, state, failureClass, consecutiveFailures := false, State.Stopped, NoFailure, 0;
      queue, suspended, alive, launches := [], None, {}, 0;
    }

    // -------------------------------------------------------------- timers

    method ScheduleRestart(forGeneration: nat)
      modifies this`restartTimer, this`consecutiveFailures, this`state
      ensures
        var armed := !shuttingDown && !failureClass.AuthenticationFailure? && forGeneration == generation
                     && old(restartTimer.None?) && outside.enabled && outside.tokenConfigured;
        && restartTimer == (if armed then Some(generation) else old(restartTimer))
        && consecutiveFailures == old(consecutiveFailures) + (if armed then 1 else 0)
        && state == (if armed then Backoff else old(state))
      ensures Seen() == old(Seen()).SchedulingRestart(forGeneration)
    {
      if shuttingDown || failureClass == AuthenticationFailure || forGeneration != generation || restartTimer.Some? {
        return;
      }
      if !outside.enabled || !outside.tokenConfigured {
        return;
      }
      consecutiveFailures := consecutiveFailures + 1;
      state := Backoff;
      restartTimer := Some(forGeneration);
    }

    method ScheduleAvailabilityCheck()
      modifies this`availabilityTimer
      ensures availabilityTimer ==
        (old(availabilityTimer) || (!shuttingDown && outside.enabled && outside.tokenConfigured))
      ensures Seen() == old(Seen()).SchedulingAvailabilityCheck()
    {
      if shuttingDown || availabilityTimer || !outside.enabled || !outside.tokenConfigured {
        return;
      }
      availabilityTimer := true;
    }

    // -------------------------------------------------------------- launching and stopping

    method LaunchChild()
      requires Seen().Sound() && child.None? && suspended.None?
      modifies this`restartTimer, this`availabilityTimer, this`stableTimer, this`generation, this`state,
               this`failureClass, this`child, this`alive, this`launches, this`consecutiveFailures
      ensures Seen() == old(Seen()).Launching()
      ensures Seen().Sound()
      ensures !shuttingDown ==> Seen().LaunchedIf(CanLaunch(outside), old(Seen()))
    {
      LaunchingKeepsSound(Seen());
      if shuttingDown {
        return;
      }
      restartTimer, availabilityTimer := None, false;
      if !outside.tokenReadable {
        state := Failed;
        return;
      }
      Spawn();
    }

    /** A new generation, and in it either a process or a failure to start one. */
    method Spawn()
      modifies this`restartTimer, this`stableTimer, this`generation, this`state,
               this`failureClass, this`child, this`alive, this`launches, this`consecutiveFailures
      ensures Seen() == old(Seen()).Spawning()
    {
      ghost var was := Seen();
      generation := generation + 1;
      state := Starting;
      if !outside.spawnWorks {
        failureClass, state := LaunchFailure, Failed;
        assert Seen() == was.(generation := generation, failureClass := LaunchFailure, state := Failed);
        ScheduleRestart(generation);
        return;
      }
      child, alive, launches := Some(generation), alive + {generation}, launches + 1;
      stableTimer := Some(generation);
    }

    /** Disarm everything, let go of the child, and wait for it to terminate before doing the rest. */
    method StopChild(next: State, rest: Rest)
      requires Seen().Basic() && suspended.None?
      requires shuttingDown ==> rest.Nothing?
      modifies this
      ensures Seen() == old(Seen()).Stopping(next, rest)
      ensures Seen().Sound()
      ensures old(child.Some?) ==>
        && suspended == Some(Suspended(old(child).value, next, rest))
        && generation == old(generation) + 1 && child.None? && restartTimer.None? && !availabilityTimer
        && launches == old(launches) && failureClass == old(failureClass)
      ensures old(child.None?) ==>
        suspended.None? && Seen().Finished(next, rest, old(generation) + 1, old(launches))
    {
      ghost var dropped := Seen().(restartTimer := None, stableTimer := None, availabilityTimer := false,
                                   child := None, generation := generation + 1);
      restartTimer, stableTimer, availabilityTimer := None, None, false;
      var terminating := child;
      child := None;
      generation := generation + 1;
      assert Seen() == dropped;
      if terminating.Some? {
        suspended := Some(Suspended(terminating.value, next, rest));
      } else {
        FinishStopping(next, rest);
      }
      assert Seen() == old(Seen()).Stopping(next, rest);
      StoppingKeepsSound(old(Seen()), next, rest);
    }

    /** The second half of stopping: settle the state and do the rest of the reconciliation. */
    method FinishStopping(next: State, rest: Rest)
      requires Seen().Sound() && suspended.None? && child.None? && restartTimer.None? && !availabilityTimer
      modifies this
      ensures Seen() == old(Seen()).FinishingStop(next, rest)
      ensures Seen().Sound() && Seen().Finished(next, rest, old(generation), old(launches))
    {
      FinishingStopKeepsSound(Seen(), next, rest);
      state := next;
      if next.Disabled? || next.Stopped? {
        failureClass := NoFailure;
      }
      match rest
      case Nothing =>
      case RecheckAvailability => ScheduleAvailabilityCheck();
      case Launch => LaunchChild();
    }

    // -------------------------------------------------------------- operations

    method Reconcile(forceRestart: bool)
      requires Seen().Sound() && suspended.None?
      modifies this
      ensures Seen() == old(Seen()).Reconciling(forceRestart)
      ensures Seen().Sound()
      ensures !shuttingDown ==> Seen().Reconciled(forceRestart, old(child), old(generation), old(launches))
    {
      ReconcilingKeepsSound(Seen(), forceRestart);
      if shuttingDown {
        return;
      }
      if !outside.enabled {
        StopChild(Disabled, Nothing);
      } else if !outside.tokenConfigured {
        StopChild(NeedsToken, Nothing);
      } else if !outside.commandAvailable {
        StopChild(Unavailable, RecheckAvailability);
      } else if forceRestart {
        StopChild(State.Stopped, Launch);
      } else if child.None? {
        LaunchChild();
      }
    }

    /** Run one operation until it ends or has to wait. An operation that throws changes nothing. */
    method RunOperation(operation: Operation)
      requires Seen().Sound() && suspended.None?
      requires operation.RestartDue? ==> restartTimer.None?
      modifies this
      ensures Seen() == old(Seen()).Running(operation)
      ensures Seen().Sound()
      ensures shuttingDown == (old(shuttingDown) || operation == Requested(Shutdown))
      ensures old(shuttingDown) ==> launches == old(launches)
      ensures operation.Requested? && (!old(shuttingDown) || operation.request.Shutdown?) ==>
        Seen().Served(operation.request, old(Seen()))
    {
      RunningKeepsSound(Seen(), operation);
      match operation
      case RestartDue(forGeneration) =>
        if shuttingDown || forGeneration != generation || child.Some? {
          return;
        }
        if !outside.commandAvailable {
          state := Unavailable;
          ScheduleAvailabilityCheck();
        } else {
          LaunchChild();
        }
      case AvailabilityDue =>
        Reconcile(false);
      case Requested(Start) =>
        Reconcile(false);
      case Requested(Restart) =>
        if outside.enabled && outside.tokenConfigured {
          Reconcile(true);
        }
      case Requested(Configure(enabled, newToken, clearToken)) =>
        var now := Reconfigured(outside, operation.request);
        if now.None? {
          return;
        }
        outside := now.value;
        failureClass := NoFailure;
        assert Seen() == old(Seen()).(outside := now.value, failureClass := NoFailure);
        Reconcile(true);
      case Requested(Shutdown) =>
        shuttingDown := true;
        assert Seen() == old(Seen()).(shuttingDown := true);
        StopChild(State.Stopped, Nothing);
    }

    /** Run queued operations until one has to wait or none is left. */
    method Drain()
      requires Seen().Ready()
      modifies this
      ensures Seen() == old(Seen()).Draining()
    {
      while suspended.None? && queue != []
        invariant Seen().Ready() && Seen().Draining() == old(Seen()).Draining()
        decreases |queue|
      {
        ReadyToRun(Seen());
        var operation := queue[0];
        queue := queue[1..];
        RunOperation(operation);
      }
    }

    // -------------------------------------------------------------- events

    /** A caller asks for an operation. */
    method Ask(request: Request)
      requires Valid()
      modifies this
      ensures Valid() && Seen() == old(Seen()).Next(Asked(request))
      ensures request.Shutdown? ==> shuttingDown || (suspended.Some? && Requested(Shutdown) in queue)
      ensures old(suspended.Some?) ==> Seen() == old(Seen()).(queue := old(queue) + [Requested(request)])
      ensures old(suspended.None?) && (!old(shuttingDown) || request.Shutdown?) ==>
        Seen().Served(request, old(Seen()))
    {
      NextKeepsValid(Seen(), Asked(request));
      NextIsReady(Seen(), Requested(request));
      if suspended.None? {
        DrainingOne(Seen(), Requested(request));
        RunningKeepsSound(Seen(), Requested(request));
      }
      queue := queue + [Requested(request)];
      Drain();
    }

    method RestartTimerFires()
      requires Valid() && restartTimer.Some?
      modifies this
      ensures Valid() && Seen() == old(Seen()).Next(RestartTimer)
      ensures !shuttingDown && outside == old(outside) && suspended.None?
      ensures
        if outside.commandAvailable then
          Seen().Finished(State.Stopped, Launch, old(generation), old(launches))
        else
          child.None? && restartTimer.None? && launches == old(launches) && generation == old(generation)
          && availabilityTimer == (outside.enabled && outside.tokenConfigured)
    {
      NextKeepsValid(Seen(), RestartTimer);
      var due := restartTimer.value;
      restartTimer := None;
      NextIsReady(Seen(), RestartDue(due));
      DrainingOne(Seen(), RestartDue(due));
      queue := queue + [RestartDue(due)];
      Drain();
    }

    method AvailabilityTimerFires()
      requires Valid() && availabilityTimer
      modifies this
      ensures Valid() && Seen() == old(Seen()).Next(AvailabilityTimer)
      ensures !shuttingDown && outside == old(outside) && suspended.None?
      ensures Seen().Reconciled(false, None, old(generation), old(launches))
    {
      NextKeepsValid(Seen(), AvailabilityTimer);
      availabilityTimer := false;
      NextIsReady(Seen(), AvailabilityDue);
      DrainingOne(Seen(), AvailabilityDue);
      ReconcilingKeepsSound(Seen(), false);
      queue := queue + [AvailabilityDue];
      Drain();
    }

    /** The child has run long enough: forget its earlier failures, unless it is no longer the child. */
    method StableTimerFires()
      requires Valid() && stableTimer.Some?
      modifies this`stableTimer, this`consecutiveFailures
      ensures Valid() && Seen() == old(Seen()).Next(StableTimer)
      ensures consecutiveFailures == if child == old(stableTimer) then 0 else old(consecutiveFailures)
    {
      if stableTimer.value == generation && child == stableTimer {
        consecutiveFailures := 0;
      }
      stableTimer := None;
    }

    /** A process exits, or could not be started at all. Only the current child is missed. */
    method ProcessExits(exited: nat, startError: bool)
      requires Valid() && exited in alive
      modifies this
      ensures Valid() && Seen() == old(Seen()).Exiting(exited, startError)
      ensures old(child) != Some(exited) ==> Seen() == old(Seen()).(alive := old(alive) - {exited})
      ensures old(child) == Some(exited) ==>
        && generation == old(generation) && launches == old(launches)
        && failureClass == (if !old(failureClass).NoFailure? then old(failureClass)
                            else if startError then LaunchFailure else RuntimeFailure)
        && (failureClass.AuthenticationFailure? ==> Seen().Parked() && state.NeedsAttention?)
        && (!failureClass.AuthenticationFailure? && outside.enabled && outside.tokenConfigured ==>
              restartTimer == Some(generation))
    {
      ExitingMeans(Seen(), exited, startError);
      ghost var less := Seen().(alive := alive - {exited});
      var current := child == Some(exited) && exited == generation;
      alive := alive - {exited};
      if !current {
        return;
      }
      child, stableTimer := None, None;
      if failureClass.NoFailure? {
        failureClass := if startError then LaunchFailure else RuntimeFailure;
      }
      if failureClass == AuthenticationFailure {
        state := NeedsAttention;
        assert Seen() == less.(child := None, stableTimer := None, state := NeedsAttention);
        return;
      }
      state := Failed;
      assert Seen() == less.(child := None, stableTimer := None, failureClass := failureClass, state := Failed);
      ScheduleRestart(exited);
    }

    /** A line of output, possibly late: it may follow the exit of the process that wrote it. */
    method Output(from: nat, line: Line)
      requires Valid()
      modifies this`state, this`failureClass
      ensures Valid() && Seen() == old(Seen()).Hearing(from, line)
      ensures from != generation ==> state == old(state) && failureClass == old(failureClass)
      ensures from == generation ==>
        && state == (if line.Registered? then Connected else old(state))
        && failureClass == (if line.AuthenticationError? then AuthenticationFailure
                            else if line.Registered? && !old(state).Connected? then NoFailure
                            else old(failureClass))
    {
      if from != generation {
        return;
      }
      match line
      case Registered =>
        if state != Connected {
          state, failureClass := Connected, NoFailure;
        }
      case AuthenticationError => failureClass := AuthenticationFailure;
      case OtherError =>
      case Chatter =>
    }

    /** The process being stopped is gone: the suspended operation goes on, and then the queue. */
    method TerminationObserved()
      requires Valid() && suspended.Some? && suspended.value.terminating !in alive
      modifies this
      ensures Valid() && Seen() == old(Seen()).Next(Terminated)
      ensures old(queue) == [] ==>
        && suspended.None? && shuttingDown == old(shuttingDown)
        && Seen().Finished(old(suspended).value.next, old(suspended).value.rest, old(generation), old(launches))
      ensures Requested(Shutdown) in old(queue) ==> shuttingDown || (suspended.Some? && Requested(Shutdown) in queue)
    {
      NextKeepsValid(Seen(), Terminated);
      TerminatedIsReady(Seen());
      var s := suspended.value;
      suspended := None;
      FinishStopping(s.next, s.rest);
      Drain();
    }

    method OutsideChanges(now: Outside)
      requires Valid()
      modifies this`outside
      ensures Valid() && Seen() == old(Seen()).Next(Changed(now))
    {
      outside := now;
    }
  }

  /** One event, if it can happen now, and whether it spawned a process or was an authentication failure. */
  method Handle(m: Manager, event: Event) returns (launched: bool, refused: bool)
    requires m.Valid()
    modifies m
    ensures m.Valid() && m.Seen() == old(m.Seen()).Next(event)
    ensures launched <==> m.launches > old(m.launches)
    ensures refused <==>
      event.Exit? && old(m.child) == Some(event.process) && old(m.failureClass).AuthenticationFailure?
  {
    var spawned := m.launches;
    refused := false;
    match event {
      case Asked(request) => m.Ask(request);
      case RestartTimer => if m.restartTimer.Some? { m.RestartTimerFires(); }
      case AvailabilityTimer => if m.availabilityTimer { m.AvailabilityTimerFires(); }
      case StableTimer => if m.stableTimer.Some? { m.StableTimerFires(); }
      case Exit(process, startError) =>
        if process in m.alive {
          refused := m.child == Some(process) && m.failureClass == AuthenticationFailure;
          m.ProcessExits(process, startError);
        }
      case Wrote(process, line) => m.Output(process, line);
      case Terminated =>
        if m.suspended.Some? && m.suspended.value.terminating !in m.alive { m.TerminationObserved(); }
      case Changed(now) => m.OutsideChanges(now);
    }
    launched := m.launches > spawned;
  }

  /** The states of a run: the first, and one after each event. */
  ghost predicate IsRun(trace: seq<Snapshot>, events: seq<Event>) {
    && |trace| == |events| + 1
    && forall i | 0 <= i < |events| :: trace[i + 1] == trace[i].Next(events[i])
  }

  /** One safe step from a sound state to a sound state, with at most one process spawned. */
  ghost predicate SafeStep(s: Snapshot, s': Snapshot) {
    s.Valid() && s'.Valid() && s'.Safe() && s.launches <= s'.launches <= s.launches + 1
  }

  ghost predicate IsSafe(trace: seq<Snapshot>) {
    && trace != [] && trace[0].Valid() && trace[0].Safe()
    && forall i | 0 <= i < |trace| - 1 :: SafeStep(trace[i], trace[i + 1])
  }

  lemma NextIsSafeStep(s: Snapshot, event: Event)
    requires s.Valid()
    ensures SafeStep(s, s.Next(event))
  {
    NextKeepsValid(s, event);
    NextLaunchesOnce(s, event);
    ValidIsSafe(s.Next(event));
  }

  lemma RunGoesOn(trace: seq<Snapshot>, events: seq<Event>, event: Event, next: Snapshot)
    requires IsRun(trace, events) && IsSafe(trace) && trace[|events|].Valid()
    requires next == trace[|events|].Next(event)
    ensures IsRun(trace + [next], events + [event]) && IsSafe(trace + [next])
  {
    NextIsSafeStep(trace[|events|], event);
    var longer, all := trace + [next], events + [event];
    forall i | 0 <= i < |all|
      ensures longer[i + 1] == longer[i].Next(all[i]) && SafeStep(longer[i], longer[i + 1])
    {
      if i < |events| {
        assert longer[i] == trace[i] && longer[i + 1] == trace[i + 1] && all[i] == events[i];
      }
    }
  }

  /**
   Every run from the start: after shutdown nothing is ever launched or armed, and after an
   authentication failure nothing is launched until a caller asks for an operation again.
   */
  method Supervise(outside: Outside, events: seq<Event>)
    returns (m: Manager, launchedAfterShutdown: bool, launchedUnasked: bool, ghost trace: seq<Snapshot>)
    ensures IsRun(trace, events) && IsSafe(trace) && trace[|events|] == m.Seen()
    ensures trace[0].Parked() && trace[0].outside == outside && trace[0].launches == 0
    ensures !launchedAfterShutdown && !launchedUnasked
  {
    m := new Manager(outside);
    launchedAfterShutdown, launchedUnasked := false, false;
    var waitingForCaller := false;
    trace := [m.Seen()];
    for i := 0 to |events|
      invariant fresh(m) && m.Valid()
      invariant IsRun(trace, events[..i]) && IsSafe(trace) && trace[i] == m.Seen()
      invariant trace[0].Parked() && trace[0].outside == outside && trace[0].launches == 0
      invariant waitingForCaller ==> m.Seen().Parked()
      invariant !launchedAfterShutdown && !launchedUnasked
    {
      var down := m.shuttingDown;
      if events[i].Asked? && !events[i].request.Shutdown? {
        waitingForCaller := false;
      }
      StepIsSafe(m.Seen(), events[i], waitingForCaller);
      var launched, refused := Handle(m, events[i]);
      launchedAfterShutdown := launchedAfterShutdown || (launched && down);
      launchedUnasked := launchedUnasked || (launched && waitingForCaller);
      waitingForCaller := waitingForCaller || refused;
      RunGoesOn(trace, events[..i], events[i], m.Seen());
      assert events[..i + 1] == events[..i] + [events[i]];
      trace := trace + [m.Seen()];
    }
    assert events[..|events|] == events;
  }

  lemma StepIsSafe(s: Snapshot, event: Event, waitingForCaller: bool)
    requires s.Valid() && (waitingForCaller ==> s.Parked() && (event.Asked? ==> event.request.Shutdown?))
    ensures s.shuttingDown || waitingForCaller ==> s.Next(event).launches == s.launches
    ensures waitingForCaller ==> s.Next(event).Parked()
    ensures event.Exit? && s.child == Some(event.process) && s.failureClass.AuthenticationFailure? ==>
      s.Next(event).Parked()
  {
    NextKeepsValid(s, event);
    if waitingForCaller {
      ParkedUntilAsked(s, event);
    }
    if event.Exit? && s.child == Some(event.process) && s.failureClass.AuthenticationFailure? {
      AuthenticationFailureParks(s, event.process, event.startError);
    }
  }
}
