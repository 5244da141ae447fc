/**
 The lock that lets one mutation at a time run on each site. Requests chain promises: each waits
 for the tail it found, and leaves a tail of its own that settles after that one and after its gate.
 */
module SiteLock {
  import opened Wrappers

  type Site = int
  /** A request that waits or waited for the lock, numbered in order of arrival. */
  type Ticket = nat

  datatype Request = Request(site: Site, previous: Option<Ticket>)

  /** `u` arrived before `t` for the same site. */
  predicate Ahead(requests: seq<Request>, u: Ticket, t: Ticket) {
    u < t < |requests| && requests[u].site == requests[t].site
  }

  /** Every earlier request for the site has ended. */
  ghost predicate FirstInLine(requests: seq<Request>, released: set<Ticket>, t: Ticket) {
    forall u: Ticket | Ahead(requests, u, t) :: u in released
  }

  /** A request found the tail of the one just ahead of it, or no tail and an idle site. */
  ghost predicate Linked(requests: seq<Request>, released: set<Ticket>, t: Ticket)
    requires t < |requests|
  {
    match requests[t].previous
    case None => FirstInLine(requests, released, t)
    case Some(u) => Ahead(requests, u, t) && forall w: Ticket | Ahead(requests, w, t) :: w <= u
  }

  lemma LinkedStays(requests: seq<Request>, more: seq<Request>, released: set<Ticket>, others: set<Ticket>, t: Ticket)
    requires t < |requests| <= |more| && more[..|requests|] == requests && released <= others
    requires Linked(requests, released, t)
    ensures Linked(more, others, t)
  {
    assert forall w | 0 <= w < |requests| :: more[w] == requests[w];
    assert forall w: Ticket :: Ahead(more, w, t) <==> Ahead(requests, w, t);
  }

  datatype Snapshot = Snapshot(
    tails: map<Site, Ticket>, requests: seq<Request>, granted: seq<Ticket>, released: set<Ticket>)

  /** The map points to the latest request for each site, and holds no site whose requests have all ended. */
  ghost predicate TailsFit(tails: map<Site, Ticket>, requests: seq<Request>, released: set<Ticket>) {
    && (forall site | site in tails ::
          && tails[site] < |requests| && requests[tails[site]].site == site && tails[site] !in released
          && forall t: Ticket | t < |requests| && requests[t].site == site :: t <= tails[site])
    && (forall t: Ticket | t < |requests| && requests[t].site !in tails :: t in released)
  }

  ghost predicate Sound(s: Snapshot) {
    && (forall t: Ticket | t < |s.requests| :: Linked(s.requests, s.released, t))
    && TailsFit(s.tails, s.requests, s.released)
    && (forall t | t in s.released :: t in s.granted)
    && (forall t | t in s.granted :: t < |s.requests| && FirstInLine(s.requests, s.released, t))
  }

  /** Requests for one site are handed on in the order in which they arrived. */
  ghost predicate Ordered(s: Snapshot) {
    forall i, j | 0 <= i < j < |s.granted| ::
      s.granted[i] != s.granted[j] && !Ahead(s.requests, s.granted[j], s.granted[i])
  }

  /** A new request is linked to the tail of its site, or finds every request for its site ended. */
  lemma NewIsLinked(requests: seq<Request>, released: set<Ticket>, r: Request)
    requires
      match r.previous
      case None => forall u: Ticket | u < |requests| && requests[u].site == r.site :: u in released
      case Some(u) =>
        && u < |requests| && requests[u].site == r.site
        && forall w: Ticket | w < |requests| && requests[w].site == r.site :: w <= u
    ensures Linked(requests + [r], released, |requests|)
  {
    assert forall w | 0 <= w < |requests| :: (requests + [r])[w] == requests[w];
  }

  lemma TailsFitArrival(tails: map<Site, Ticket>, requests: seq<Request>, released: set<Ticket>, r: Request)
    requires TailsFit(tails, requests, released) && |requests| !in released
    ensures TailsFit(tails[r.site := |requests|], requests + [r], released)
  {
    var more := requests + [r];
    assert more[|requests|] == r && forall w | 0 <= w < |requests| :: more[w] == requests[w];
  }

  lemma ArrivalKeepsSound(s: Snapshot, r: Request, s': Snapshot)
    requires Sound(s) && Ordered(s)
    requires r.previous == if r.site in s.tails then Some(s.tails[r.site]) else None
    requires s' == s.(requests := s.requests + [r], tails := s.tails[r.site := |s.requests|])
    ensures Sound(s') && Ordered(s')
  {
    NewIsLinked(s.requests, s.released, r);
    TailsFitArrival(s.tails, s.requests, s.released, r);
    forall t: Ticket | t < |s.requests| ensures Linked(s'.requests, s'.released, t) {
      LinkedStays(s.requests, s'.requests, s.released, s.released, t);
    }
    forall u: Ticket, t: Ticket | t < |s.requests|
      ensures Ahead(s'.requests, u, t) <==> Ahead(s.requests, u, t)
    {
    }
  }

  /** The tails without that of a request, if it is the last one for its site. */
  function WithoutTail(tails: map<Site, Ticket>, site: Site, t: Ticket): map<Site, Ticket> {
    if site in tails && tails[site] == t then tails - {site} else tails
  }

  lemma TailsFitEnd(tails: map<Site, Ticket>, requests: seq<Request>, released: set<Ticket>, t: Ticket)
    requires TailsFit(tails, requests, released) && t < |requests| && FirstInLine(requests, released, t)
    ensures TailsFit(WithoutTail(tails, requests[t].site, t), requests, released + {t})
  {
    assert forall u: Ticket | u < t && requests[u].site == requests[t].site :: Ahead(requests, u, t);
  }

  lemma EndKeepsSound(s: Snapshot, t: Ticket, s': Snapshot)
    requires Sound(s) && Ordered(s) && t in s.granted
    requires s' == s.(released := s.released + {t}, tails := WithoutTail(s.tails, s.requests[t].site, t))
    ensures Sound(s') && Ordered(s')
  {
    TailsFitEnd(s.tails, s.requests, s.released, t);
    forall w: Ticket | w < |s.requests| ensures Linked(s'.requests, s'.released, w) {
      LinkedStays(s.requests, s'.requests, s.released, s'.released, w);
    }
  }

  class Serializer {
    var tails: map<Site, Ticket>
    var requests: seq<Request>
    /** The requests handed on to their route, in that order. */
    var granted: seq<Ticket>
    /** The requests whose response ended, which opened their gates. */
    var released: set<Ticket>

    constructor ()
      ensures Valid() && InOrder() && Now() == Snapshot(map[], [], [], {})
    {
      tails, requests, granted, released := map[], [], [], {};
    }

    ghost function Now(): Snapshot
      reads this
    {
      Snapshot(tails, requests, granted, released)
    }

    ghost predicate Valid()
      reads this
    {
      Sound(Now())
    }

    /** The tail promise that a request left has settled. */
    predicate Settled(t: Ticket)
      requires Valid() && t < |requests|
      reads this
      decreases t
    {
      assert Linked(requests, released, t);
      t in released && (requests[t].previous.None? || Settled(requests[t].previous.value))
    }

    /** The promise that a request waits for has settled. */
    predicate MayResume(t: Ticket)
      requires Valid() && t < |requests|
      reads this
    {
      assert Linked(requests, released, t);
      requests[t].previous.None? || Settled(requests[t].previous.value)
    }

    /**
     A request stops waiting exactly when every earlier request for its site has ended: nothing
     that happens on another site holds it up.
     */
    lemma {:induction false} MayResumeIffFirstInLine(t: Ticket)
      requires Valid() && t < |requests|
      ensures MayResume(t) <==> FirstInLine(requests, released, t)
      decreases t
    {
      assert Linked(requests, released, t);
      if requests[t].previous.Some? {
        var u := requests[t].previous.value;
        MayResumeIffFirstInLine(u);
        assert forall w: Ticket | Ahead(requests, w, t) :: w == u || Ahead(requests, w, u);
        assert forall w: Ticket | Ahead(requests, w, u) :: Ahead(requests, w, t);
      }
    }

    /** No two requests for one site run at the same time. */
    lemma MutualExclusion(t: Ticket, u: Ticket)
      requires Valid() && t in granted && u in granted && t !in released && u !in released
      requires requests[t].site == requests[u].site
      ensures t == u
    {
      assert t < u ==> Ahead(requests, t, u);
      assert u < t ==> Ahead(requests, u, t);
    }

    ghost predicate InOrder()
      reads this
    {
      Ordered(Now())
    }

    /** The map holds an entry for a site exactly while some request for it has not ended. */
    lemma EntryIffUnfinished(site: Site)
      requires Valid()
      ensures site in tails <==> exists t | 0 <= t < |requests| :: requests[t].site == site && t !in released
    {
    }

    /** A request arrives; reads and requests without a site pass, the others take their place in line. */
    method Arrive(verb: string, id: Option<int>) returns (ticket: Option<Ticket>)
      requires Valid() && InOrder()
      modifies this
      ensures Valid() && InOrder() && granted == old(granted) && released == old(released)
      ensures ticket == if Passes(verb, id) then None else Some(|old(requests)|)
      ensures Now() == Next(old(Now()), Arrives(verb, id))
    {
      if verb in {"GET", "HEAD", "OPTIONS"} {
        return None;
      }
      if id.None? || !(1 <= id.value <= MAX_SAFE_INTEGER) {
        return None;
      }
      var site := id.value;
      var t := |requests|;
      var previous := if site in tails then Some(tails[site]) else None;
      requests := requests + [Request(site, previous)];
      tails := tails[site := t];
      ArrivalKeepsSound(old(Now()), Request(site, previous), Now());
      return Some(t);
    }

    /** The promise a request awaits has settled, and the request is handed on. */
    method Resume(t: Ticket)
      requires Valid() && InOrder() && t < |requests| && t !in granted && MayResume(t)
      modifies this`granted
      ensures Valid() && InOrder() && granted == old(granted) + [t]
      ensures FirstInLine(requests, released, t)
    {
      MayResumeIffFirstInLine(t);
      forall u | u in granted ensures !Ahead(requests, t, u) {
      }
      granted := granted + [t];
    }

    /** The response has finished or closed; the second of the two events changes nothing. */
    method Finish(t: Ticket)
      requires Valid() && InOrder() && t in granted
      modifies this`released, this`tails
      ensures Valid() && InOrder() && released == old(released) + {t}
      ensures tails == if t in old(released) then old(tails) else WithoutTail(old(tails), requests[t].site, t)
    {
      if t in released {
        return;
      }
      var site := requests[t].site;
      released := released + {t};
      if site in tails && tails[site] == t {
        tails := tails - {site};
      }
      EndKeepsSound(old(Now()), t, Now());
    }
  }

  // ---------------------------------------------------------------- every interleaving

  datatype Event = Arrives(verb: string, id: Option<int>) | Resumes(t: Ticket) | Ends(t: Ticket)

  predicate Passes(verb: string, id: Option<int>) {
    verb in {"GET", "HEAD", "OPTIONS"} || id.None? || !(1 <= id.value <= MAX_SAFE_INTEGER)
  }

  /** What an event does; one that cannot happen yet does nothing. A request may go on once it is first in line. */
  ghost function Next(s: Snapshot, e: Event): Snapshot {
    match e
    case Arrives(verb, id) =>
      if Passes(verb, id) then s
      else
        var previous := if id.value in s.tails then Some(s.tails[id.value]) else None;
        s.(requests := s.requests + [Request(id.value, previous)], tails := s.tails[id.value := |s.requests|])
    case Resumes(t) =>
      if t < |s.requests| && t !in s.granted && FirstInLine(s.requests, s.released, t) then
        s.(granted := s.granted + [t])
      else
        s
    case Ends(t) =>
      if t !in s.granted || t in s.released || t >= |s.requests| then s
      else s.(released := s.released + {t}, tails := WithoutTail(s.tails, s.requests[t].site, t))
  }

  ghost function After(events: seq<Event>): Snapshot {
    if events == [] then Snapshot(map[], [], [], {}) else Next(After(events[..|events| - 1]), events[|events| - 1])
  }

  /** One event, if it can happen. */
  method Handle(lock: Serializer, event: Event)
    requires lock.Valid() && lock.InOrder()
    modifies lock
    ensures lock.Valid() && lock.InOrder()
    ensures lock.Now() == Next(old(lock.Now()), event)
  {
    match event {
      case Arrives(verb, id) =>
        var _ := lock.Arrive(verb, id);
      case Resumes(t) =>
        if t < |lock.requests| && t !in lock.granted {
          lock.MayResumeIffFirstInLine(t);
          if lock.MayResume(t) {
            lock.Resume(t);
          }
        }
      case Ends(t) =>
        if t in lock.granted {
          lock.Finish(t);
        }
    }
  }

  /** Any interleaving of arrivals, resumptions and ends. */
  method Interleave(events: seq<Event>) returns (lock: Serializer)
    ensures lock.Valid() && lock.InOrder() && lock.Now() == After(events)
    ensures forall t, u | t in lock.granted && u in lock.granted && t !in lock.released && u !in lock.released ::
              lock.requests[t].site == lock.requests[u].site ==> t == u
    ensures forall site :: site in lock.tails
              <==> exists t | 0 <= t < |lock.requests| :: lock.requests[t].site == site && t !in lock.released
  {
    lock := new Serializer();
    for i := 0 to |events|
      invariant fresh(lock) && lock.Valid() && lock.InOrder() && lock.Now() == After(events[..i])
    {
      assert events[..i + 1][..i] == events[..i];
      Handle(lock, events[i]);
    }
    assert events[..|events|] == events;
    forall t, u | t in lock.granted && u in lock.granted && t !in lock.released && u !in lock.released
                  && lock.requests[t].site == lock.requests[u].site
      ensures t == u
    {
      lock.MutualExclusion(t, u);
    }
    forall site ensures site in lock.tails
                  <==> exists t | 0 <= t < |lock.requests| :: lock.requests[t].site == site && t !in lock.released
    {
      lock.EntryIffUnfinished(site);
    }
  }
}
