/**
 The per-service auto-fix lock. Error handlers and ack handlers run interleaved, switching
 only at their awaits; each event below is one uninterrupted segment between two awaits.
 The service table is fixed and one tenant is modelled.
 */
module FixLock {
  import opened Wrappers

  datatype Service = Service(id: string, name: string, agents: seq<string>, hasRepo: bool, hasKeyId: bool)

  datatype Status = Open | Fixing | Paused | MissingAuth | Fixed

  datatype Outcome =
    | Dispatched(command: nat) | SkippedMissingAuth | SkippedNoAgent | SkippedNoOnlineAgent
    | SkippedPaused | SkippedInFlight | SkippedNoRepo

  // --------------------------------------------------------------- pure parts

  function FirstById(services: seq<Service>, ref: string): Option<Service> {
    if services == [] then None
    else if services[0].id == ref then Some(services[0])
    else FirstById(services[1..], ref)
  }

  function FirstByName(services: seq<Service>, ref: string): Option<Service> {
    if services == [] then None
    else if services[0].name == ref then Some(services[0])
    else FirstByName(services[1..], ref)
  }

  /** What an agent reports as service is an id or, failing that, a name. */
  function Lookup(services: seq<Service>, ref: string): Option<Service> {
    var byId := FirstById(services, ref);
    if byId.Some? then byId else FirstByName(services, ref)
  }

  lemma {:induction false} FirstByIdMeans(services: seq<Service>, ref: string)
    ensures var r := FirstById(services, ref);
            if r.Some? then r.value in services && r.value.id == ref else forall s | s in services :: s.id != ref
  {
    if services != [] {
      FirstByIdMeans(services[1..], ref);
      assert services == [services[0]] + services[1..];
    }
  }

  lemma {:induction false} FirstByNameMeans(services: seq<Service>, ref: string)
    ensures var r := FirstByName(services, ref);
            if r.Some? then r.value in services && r.value.name == ref else forall s | s in services :: s.name != ref
  {
    if services != [] {
      FirstByNameMeans(services[1..], ref);
      assert services == [services[0]] + services[1..];
    }
  }

  /** An id wins over a name, and nothing is found only when neither matches any service. */
  lemma LookupMeans(services: seq<Service>, ref: string)
    ensures var r := Lookup(services, ref);
            && (r.Some? <==> exists s :: s in services && (s.id == ref || s.name == ref))
            && (r.Some? ==> r.value in services)
            && ((exists s :: s in services && s.id == ref) ==> r.Some? && r.value.id == ref)
            && (r.Some? && r.value.id != ref ==> r.value.name == ref)
  {
    FirstByIdMeans(services, ref);
    FirstByNameMeans(services, ref);
  }

  predicate AnyOnline(agents: seq<string>, online: set<string>) {
    exists a :: a in agents && a in online
  }

  /** dispatchAutoFix up to its first await; None when it goes on to read the SSH key. */
  function Guards(status: Status, service: Service, online: set<string>): (r: Option<Outcome>)
    ensures r.None? <==> status != Paused && status != Fixing && AnyOnline(service.agents, online) && service.hasRepo && service.hasKeyId
    ensures r.Some? ==> !r.value.Dispatched?
  {
    if status == Paused then Some(SkippedPaused)
    else if status == Fixing then Some(SkippedInFlight)
    else if service.agents == [] then Some(SkippedNoAgent)
    else if !AnyOnline(service.agents, online) then Some(SkippedNoOnlineAgent)
    else if !service.hasRepo then Some(SkippedNoRepo)
    else if !service.hasKeyId then Some(SkippedMissingAuth)
    else None
  }

  // -------------------------------------------------------------------- the state

  /** Where an error handler is suspended, or how it died. */
  datatype Phase =
    | Looking(ref: string)
    | ReadingKey(ref: string, service: string)
    | Enqueuing(ref: string, service: string, command: nat)
    | Returning(service: string, outcome: Outcome)
    | Thrown(service: string, sent: Option<nat>)

  /** An ack handler suspended at its service lookup, or dead there. */
  datatype AckPhase = AckPhase(ref: string, thrown: bool)

  /**
   `inFlight` is the lock set and `groups` the command-to-group map, of which only the
   reported service reference matters. `unacked` are the commands handed to the queue and
   not acknowledged yet, with the id of their service.
   */
  datatype State = State(
    inFlight: set<string>, groups: map<nat, string>, handlers: map<nat, Phase>, acks: map<nat, AckPhase>,
    unacked: map<nat, string>, next: nat)

  const INITIAL := State({}, map[], map[], map[], map[], 0)

  datatype Event =
    | Arrive(handler: nat, ref: string)
    | Resolved(handler: nat, status: Status, online: set<string>)
    | KeyRead(handler: nat, found: bool)
    | KeyThrows(handler: nat)
    | EnqueueThrows(handler: nat)
    | Resumed(handler: nat)
    | Ack(command: nat)
    | AckResolved(command: nat)
    | AckThrows(command: nat)

  function Without<T>(m: map<nat, T>, k: nat): map<nat, T> {
    m - {k}
  }

  /** The lookups are back: acquire, or skip, and run the dispatcher's guards. */
  function AfterLookup(services: seq<Service>, s: State, h: nat, ref: string, status: Status, online: set<string>): State {
    var found := Lookup(services, ref);
    if found.None? || found.value.id in s.inFlight then
      s.(handlers := Without(s.handlers, h))
    else
      var id := found.value.id;
      var outcome := Guards(status, found.value, online);
      s.(inFlight := s.inFlight + {id},
         handlers := s.handlers[h := if outcome.Some? then Returning(id, outcome.value) else ReadingKey(ref, id)])
  }

  function Step(services: seq<Service>, s: State, e: Event): State {
    match e
    case Arrive(h, ref) =>
      if h in s.handlers then s else s.(handlers := s.handlers[h := Looking(ref)])
    case Resolved(h, status, online) =>
      if h in s.handlers && s.handlers[h].Looking? then AfterLookup(services, s, h, s.handlers[h].ref, status, online)
      else s
    case KeyRead(h, found) =>
      if h in s.handlers && s.handlers[h].ReadingKey? then
        var p := s.handlers[h];
        if !found then s.(handlers := s.handlers[h := Returning(p.service, SkippedMissingAuth)])
        else s.(handlers := s.handlers[h := Enqueuing(p.ref, p.service, s.next)],
                unacked := s.unacked[s.next := p.service], next := s.next + 1)
      else s
    case KeyThrows(h) =>
      if h in s.handlers && s.handlers[h].ReadingKey?
      then s.(handlers := s.handlers[h := Thrown(s.handlers[h].service, None)])
      else s
    case EnqueueThrows(h) =>
      if h in s.handlers && s.handlers[h].Enqueuing?
      then s.(handlers := s.handlers[h := Thrown(s.handlers[h].service, Some(s.handlers[h].command))])
      else s
    case Resumed(h) =>
      if h in s.handlers && s.handlers[h].Enqueuing? then
        s.(groups := s.groups[s.handlers[h].command := s.handlers[h].ref], handlers := Without(s.handlers, h))
      else if h in s.handlers && s.handlers[h].Returning? then
        s.(inFlight := s.inFlight - {s.handlers[h].service}, handlers := Without(s.handlers, h))
      else s
    case Ack(c) =>
      if c !in s.unacked then s
      else if c in s.groups then
        s.(unacked := Without(s.unacked, c), groups := Without(s.groups, c),
           acks := s.acks[c := AckPhase(s.groups[c], false)])
      else s.(unacked := Without(s.unacked, c))
    case AckResolved(c) =>
      if c in s.acks && !s.acks[c].thrown then
        var found := Lookup(services, s.acks[c].ref);
        s.(inFlight := if found.Some? then s.inFlight - {found.value.id} else s.inFlight, acks := Without(s.acks, c))
      else s
    case AckThrows(c) =>
      if c in s.acks then s.(acks := s.acks[c := s.acks[c].(thrown := true)]) else s
  }

  function Run(services: seq<Service>, s: State, es: seq<Event>): State
    decreases |es|
  {
    if es == [] then s else Run(services, Step(services, s, es[0]), es[1..])
  }

  // ----------------------------------------------------------------- who holds it

  datatype Holder = ByHandler(handler: nat) | ByGroup(command: nat) | ByAck(command: nat)

  predicate RefersTo(services: seq<Service>, ref: string, id: string) {
    Lookup(services, ref).Some? && Lookup(services, ref).value.id == id
  }

  /** `x` is the one that owes service `id` its release. */
  predicate Holds(services: seq<Service>, s: State, x: Holder, id: string) {
    match x
    case ByHandler(h) => h in s.handlers && !s.handlers[h].Looking? && s.handlers[h].service == id
    case ByGroup(c) => c in s.groups && RefersTo(services, s.groups[c], id)
    case ByAck(c) => c in s.acks && RefersTo(services, s.acks[c].ref, id)
  }

  /** The holder answers for command `c`. */
  predicate Carries(s: State, x: Holder, c: nat) {
    match x
    case ByHandler(h) =>
      && h in s.handlers
      && ((s.handlers[h].Enqueuing? && s.handlers[h].command == c) || (s.handlers[h].Thrown? && s.handlers[h].sent == Some(c)))
    case ByGroup(d) => c == d
    case ByAck(d) => false
  }

  ghost predicate Held(services: seq<Service>, s: State, id: string) {
    exists x :: Holds(services, s, x, id)
  }

  ghost predicate Owed(services: seq<Service>, s: State, c: nat, id: string) {
    exists x :: Holds(services, s, x, id) && Carries(s, x, c)
  }

  ghost predicate LockedIffHeld(services: seq<Service>, s: State) {
    forall id :: id in s.inFlight <==> Held(services, s, id)
  }

  ghost predicate OneHolder(services: seq<Service>, s: State) {
    forall x, y, id :: Holds(services, s, x, id) && Holds(services, s, y, id) ==> x == y
  }

  /** Every un-acked command has a holder that answers for it. */
  ghost predicate CommandsOwed(services: seq<Service>, s: State) {
    forall c | c in s.unacked :: Owed(services, s, c, s.unacked[c])
  }

  /** Bookkeeping: references resolve, command ids are fresh and in one place at a time. */
  ghost predicate Consistent(services: seq<Service>, s: State) {
    && (forall h | h in s.handlers && s.handlers[h].ReadingKey? :: RefersTo(services, s.handlers[h].ref, s.handlers[h].service))
    && (forall h | h in s.handlers && s.handlers[h].Enqueuing? ::
          && RefersTo(services, s.handlers[h].ref, s.handlers[h].service)
          && s.handlers[h].command < s.next && s.handlers[h].command !in s.groups && s.handlers[h].command !in s.acks)
    && (forall h, k | h in s.handlers && k in s.handlers && s.handlers[h].Enqueuing? && s.handlers[k].Enqueuing? ::
          s.handlers[h].command == s.handlers[k].command ==> h == k)
    && (forall c | c in s.groups :: c < s.next && Lookup(services, s.groups[c]).Some?)
    && (forall c | c in s.acks :: c < s.next && c !in s.groups && Lookup(services, s.acks[c].ref).Some?)
    && (forall c | c in s.unacked :: c < s.next && c !in s.acks)
    && (forall h | h in s.handlers && s.handlers[h].Returning? :: !s.handlers[h].outcome.Dispatched?)
  }

  ghost predicate Inv(services: seq<Service>, s: State) {
    && Consistent(services, s)
    && LockedIffHeld(services, s)
    && OneHolder(services, s)
    && CommandsOwed(services, s)
  }

  // ------------------------------------------------------------------- every step

  /** The holders after a step: without `gone`, and with `came` for service `id`. */
  ghost predicate Moves(services: seq<Service>, s: State, after: State, gone: Option<Holder>, came: Option<Holder>, id: string) {
    forall x, i ::
      Holds(services, after, x, i) <==> (Holds(services, s, x, i) && gone != Some(x)) || (came == Some(x) && i == id)
  }

  function LockAfter(inFlight: set<string>, gone: Option<Holder>, came: Option<Holder>, id: string): set<string> {
    if gone.Some? && came.None? then inFlight - {id}
    else if gone.None? && came.Some? then inFlight + {id}
    else inFlight
  }

  /** Acquiring a free lock, passing it on and giving it back all keep one holder per locked service. */
  lemma MovesKeepLock(services: seq<Service>, s: State, after: State, gone: Option<Holder>,
                      came: Option<Holder>, id: string)
    requires LockedIffHeld(services, s) && OneHolder(services, s) && Moves(services, s, after, gone, came, id)
    requires gone.Some? ==> Holds(services, s, gone.value, id)
    requires gone.None? && came.Some? ==> id !in s.inFlight
    requires after.inFlight == LockAfter(s.inFlight, gone, came, id)
    ensures LockedIffHeld(services, after) && OneHolder(services, after)
  {
    forall i
      ensures i in after.inFlight <==> Held(services, after, i)
    {
      if i in after.inFlight {
        if came.Some? && i == id {
          assert Holds(services, after, came.value, i);
        } else {
          assert Held(services, s, i);
          var x :| Holds(services, s, x, i);
          assert gone == Some(x) ==> Holds(services, s, x, id);
          assert Holds(services, after, x, i);
        }
      }
      if Held(services, after, i) {
        var x :| Holds(services, after, x, i);
        assert Holds(services, s, x, i) ==> Held(services, s, i);
      }
    }
    forall x, y, i | Holds(services, after, x, i) && Holds(services, after, y, i)
      ensures x == y
    {
      assert Holds(services, s, x, i) ==> Held(services, s, i);
      assert Holds(services, s, y, i) ==> Held(services, s, i);
    }
  }

  lemma ArriveKeepsConsistent(services: seq<Service>, s: State, e: Event)
    requires Consistent(services, s) && e.Arrive?
    ensures Consistent(services, Step(services, s, e))
  {
  }

  lemma SuspendKeepsConsistent(services: seq<Service>, s: State, h: nat, p: Phase, inFlight: set<string>)
    requires Consistent(services, s)
    requires (p.Returning? && !p.outcome.Dispatched?) || (p.ReadingKey? && RefersTo(services, p.ref, p.service))
    ensures Consistent(services, s.(handlers := s.handlers[h := p], inFlight := inFlight))
  {
  }

  lemma DropKeepsConsistent(services: seq<Service>, s: State, h: nat)
    requires Consistent(services, s)
    ensures Consistent(services, s.(handlers := Without(s.handlers, h)))
  {
  }

  lemma ResolvedKeepsConsistent(services: seq<Service>, s: State, e: Event)
    requires Consistent(services, s) && e.Resolved?
    ensures Consistent(services, Step(services, s, e))
  {
    var h := e.handler;
    if h in s.handlers && s.handlers[h].Looking? {
      var ref := s.handlers[h].ref;
      var found := Lookup(services, ref);
      if found.None? || found.value.id in s.inFlight {
        DropKeepsConsistent(services, s, h);
      } else {
        var id := found.value.id;
        var outcome := Guards(e.status, found.value, e.online);
        var p := if outcome.Some? then Returning(id, outcome.value) else ReadingKey(ref, id);
        SuspendKeepsConsistent(services, s, h, p, s.inFlight + {id});
      }
    }
  }

  lemma ThrowsKeepConsistent(services: seq<Service>, s: State, e: Event)
    requires Consistent(services, s) && (e.KeyThrows? || e.EnqueueThrows?)
    ensures Consistent(services, Step(services, s, e))
  {
  }

  lemma KeyMissingKeepsConsistent(services: seq<Service>, s: State, e: Event)
    requires Consistent(services, s) && e.KeyRead? && !e.found
    ensures Consistent(services, Step(services, s, e))
  {
  }

  lemma KeyFoundKeepsConsistent(services: seq<Service>, s: State, e: Event)
    requires Consistent(services, s) && e.KeyRead? && e.found
    ensures Consistent(services, Step(services, s, e))
  {
  }

  lemma ResumedKeepsConsistent(services: seq<Service>, s: State, e: Event)
    requires Consistent(services, s) && e.Resumed?
    ensures Consistent(services, Step(services, s, e))
  {
  }

  lemma AckKeepsConsistent(services: seq<Service>, s: State, e: Event)
    requires Consistent(services, s) && e.Ack?
    ensures Consistent(services, Step(services, s, e))
  {
  }

  lemma AckResolvedKeepsConsistent(services: seq<Service>, s: State, e: Event)
    requires Consistent(services, s) && e.AckResolved?
    ensures Consistent(services, Step(services, s, e))
  {
  }

  lemma AckThrowsKeepsConsistent(services: seq<Service>, s: State, e: Event)
    requires Consistent(services, s) && e.AckThrows?
    ensures Consistent(services, Step(services, s, e))
  {
  }

  predicate HandlerEvent(e: Event) {
    e.Arrive? || e.Resolved? || e.KeyRead? || e.KeyThrows? || e.EnqueueThrows? || e.Resumed?
  }

  /** Acquiring adds the handler as holder of a service nobody holds. */
  lemma ResolvedMoves(services: seq<Service>, s: State, e: Event) returns (came: Option<Holder>, id: string)
    requires Consistent(services, s) && e.Resolved?
    ensures Moves(services, s, Step(services, s, e), None, came, id)
    ensures came.Some? ==> id !in s.inFlight
    ensures Step(services, s, e).inFlight == LockAfter(s.inFlight, None, came, id)
  {
    came, id := None, "";
    var h := e.handler;
    if h in s.handlers && s.handlers[h].Looking? {
      var found := Lookup(services, s.handlers[h].ref);
      if found.Some? && found.value.id !in s.inFlight {
        came, id := Some(ByHandler(h)), found.value.id;
      }
    }
  }

  /** A handler that dispatched passes the lock to the command's group, any other gives it back. */
  lemma ResumedMoves(services: seq<Service>, s: State, e: Event)
    returns (gone: Option<Holder>, came: Option<Holder>, id: string)
    requires Consistent(services, s) && e.Resumed?
    ensures Moves(services, s, Step(services, s, e), gone, came, id)
    ensures gone.Some? ==> Holds(services, s, gone.value, id)
    ensures gone.None? ==> came.None?
    ensures Step(services, s, e).inFlight == LockAfter(s.inFlight, gone, came, id)
  {
    gone, came, id := None, None, "";
    var h := e.handler;
    if h in s.handlers && s.handlers[h].Enqueuing? {
      gone, came, id := Some(ByHandler(h)), Some(ByGroup(s.handlers[h].command)), s.handlers[h].service;
    } else if h in s.handlers && s.handlers[h].Returning? {
      gone, id := Some(ByHandler(h)), s.handlers[h].service;
    }
  }

  lemma OthersMoveNothing(services: seq<Service>, s: State, e: Event)
    requires HandlerEvent(e) && !e.Resolved? && !e.Resumed?
    ensures Moves(services, s, Step(services, s, e), None, None, "")
    ensures Step(services, s, e).inFlight == s.inFlight
  {
  }

  lemma AckTakesOver(services: seq<Service>, s: State, c: nat, id: string)
    requires Consistent(services, s) && c in s.unacked && c in s.groups && RefersTo(services, s.groups[c], id)
    ensures Moves(services, s, Step(services, s, Ack(c)), Some(ByGroup(c)), Some(ByAck(c)), id)
  {
  }

  lemma AckLetsGo(services: seq<Service>, s: State, c: nat, id: string)
    requires Consistent(services, s) && c in s.acks && !s.acks[c].thrown && RefersTo(services, s.acks[c].ref, id)
    ensures Moves(services, s, Step(services, s, AckResolved(c)), Some(ByAck(c)), None, id)
  {
  }

  /** What a segment of an ack handler does to them. */
  lemma AckMoves(services: seq<Service>, s: State, e: Event)
    returns (gone: Option<Holder>, came: Option<Holder>, id: string)
    requires Consistent(services, s) && !HandlerEvent(e)
    ensures Moves(services, s, Step(services, s, e), gone, came, id)
    ensures gone.Some? ==> Holds(services, s, gone.value, id)
    ensures gone.None? && came.Some? ==> id !in s.inFlight
    ensures Step(services, s, e).inFlight == LockAfter(s.inFlight, gone, came, id)
  {
    gone, came, id := None, None, "";
    var c := e.command;
    if e.Ack? && c in s.unacked && c in s.groups {
      gone, came, id := Some(ByGroup(c)), Some(ByAck(c)), Lookup(services, s.groups[c]).value.id;
      AckTakesOver(services, s, c, id);
    } else if e.AckResolved? && c in s.acks && !s.acks[c].thrown {
      gone, id := Some(ByAck(c)), Lookup(services, s.acks[c].ref).value.id;
      AckLetsGo(services, s, c, id);
    }
  }

  /** Resuming after the enqueue passes the command on with the lock; otherwise its holder stays. */
  lemma OwedMovesOn(services: seq<Service>, s: State, h: nat, c: nat, id: string)
    requires Consistent(services, s) && Holds(services, s, ByHandler(h), id) && Carries(s, ByHandler(h), c)
    requires s.handlers[h].Enqueuing?
    ensures Owed(services, Step(services, s, Resumed(h)), c, id)
  {
    var after := Step(services, s, Resumed(h));
    assert Holds(services, after, ByGroup(c), id) && Carries(after, ByGroup(c), c);
  }

  lemma HandlerStaysOwing(services: seq<Service>, s: State, e: Event, c: nat, h: nat, id: string)
    requires HandlerEvent(e) && Holds(services, s, ByHandler(h), id) && Carries(s, ByHandler(h), c)
    requires !(e.Resumed? && e.handler == h)
    ensures Holds(services, Step(services, s, e), ByHandler(h), id)
    ensures Carries(Step(services, s, e), ByHandler(h), c)
  {
  }

  lemma GroupStaysOwing(services: seq<Service>, s: State, e: Event, c: nat, id: string)
    requires Consistent(services, s) && HandlerEvent(e) && Holds(services, s, ByGroup(c), id)
    ensures Holds(services, Step(services, s, e), ByGroup(c), id)
  {
  }

  lemma OwedStays(services: seq<Service>, s: State, e: Event, c: nat, x: Holder, id: string)
    requires Consistent(services, s) && HandlerEvent(e) && Holds(services, s, x, id) && Carries(s, x, c)
    requires !(e.Resumed? && x == ByHandler(e.handler))
    ensures Owed(services, Step(services, s, e), c, id)
  {
    if x.ByHandler? {
      HandlerStaysOwing(services, s, e, c, x.handler, id);
    } else {
      GroupStaysOwing(services, s, e, c, id);
      assert Carries(Step(services, s, e), ByGroup(c), c);
    }
  }

  lemma HandlersKeepOwed(services: seq<Service>, s: State, e: Event, c: nat, x: Holder)
    requires Consistent(services, s) && HandlerEvent(e) && c in s.unacked
    requires Holds(services, s, x, s.unacked[c]) && Carries(s, x, c)
    ensures Owed(services, Step(services, s, e), c, s.unacked[c])
  {
    if e.Resumed? && x == ByHandler(e.handler) {
      if s.handlers[e.handler].Enqueuing? {
        OwedMovesOn(services, s, e.handler, c, s.unacked[c]);
      } else {
        assert Step(services, s, e) == s;
        assert Owed(services, s, c, s.unacked[c]);
      }
    } else {
      OwedStays(services, s, e, c, x, s.unacked[c]);
    }
  }

  lemma AcksKeepOwed(services: seq<Service>, s: State, e: Event, c: nat, x: Holder)
    requires Consistent(services, s) && !HandlerEvent(e) && c in Step(services, s, e).unacked && c in s.unacked
    requires Holds(services, s, x, s.unacked[c]) && Carries(s, x, c)
    ensures Owed(services, Step(services, s, e), c, s.unacked[c])
  {
    var after := Step(services, s, e);
    assert Holds(services, after, x, s.unacked[c]) && Carries(after, x, c);
  }

  lemma SentIsOwed(services: seq<Service>, s: State, e: Event, c: nat)
    requires c in Step(services, s, e).unacked && c !in s.unacked
    ensures Owed(services, Step(services, s, e), c, Step(services, s, e).unacked[c])
  {
    var after := Step(services, s, e);
    assert e.KeyRead?;
    assert Holds(services, after, ByHandler(e.handler), after.unacked[c]) && Carries(after, ByHandler(e.handler), c);
  }

  lemma UnackedKept(services: seq<Service>, s: State, e: Event, c: nat)
    requires Consistent(services, s) && c in s.unacked && c in Step(services, s, e).unacked
    ensures Step(services, s, e).unacked[c] == s.unacked[c]
  {
  }

  lemma StepKeepsOwed(services: seq<Service>, s: State, e: Event, c: nat)
    requires Consistent(services, s) && CommandsOwed(services, s) && c in Step(services, s, e).unacked
    ensures Owed(services, Step(services, s, e), c, Step(services, s, e).unacked[c])
  {
    var after := Step(services, s, e);
    if c !in s.unacked {
      SentIsOwed(services, s, e, c);
    } else {
      UnackedKept(services, s, e, c);
      assert Owed(services, s, c, s.unacked[c]);
      var x :| Holds(services, s, x, s.unacked[c]) && Carries(s, x, c);
      if HandlerEvent(e) {
        HandlersKeepOwed(services, s, e, c, x);
      } else {
        AcksKeepOwed(services, s, e, c, x);
      }
    }
  }

  lemma StepKeepsInv(services: seq<Service>, s: State, e: Event)
    requires Inv(services, s)
    ensures Inv(services, Step(services, s, e))
  {
    var after := Step(services, s, e);
    match e {
      case Resumed(_) => ResumedKeepsConsistent(services, s, e);
      case KeyRead(_, found) =>
        if found {
          KeyFoundKeepsConsistent(services, s, e);
        } else {
          KeyMissingKeepsConsistent(services, s, e);
        }
      case Ack(_) => AckKeepsConsistent(services, s, e);
      case AckResolved(_) => AckResolvedKeepsConsistent(services, s, e);
      case AckThrows(_) => AckThrowsKeepsConsistent(services, s, e);
      case Arrive(_, _) => ArriveKeepsConsistent(services, s, e);
      case Resolved(_, _, _) => ResolvedKeepsConsistent(services, s, e);
      case _ => ThrowsKeepConsistent(services, s, e);
    }
    if e.Resolved? {
      var came, id := ResolvedMoves(services, s, e);
      MovesKeepLock(services, s, after, None, came, id);
    } else if e.Resumed? {
      var gone, came, id := ResumedMoves(services, s, e);
      MovesKeepLock(services, s, after, gone, came, id);
    } else if HandlerEvent(e) {
      OthersMoveNothing(services, s, e);
      MovesKeepLock(services, s, after, None, None, "");
    } else {
      var gone, came, id := AckMoves(services, s, e);
      MovesKeepLock(services, s, after, gone, came, id);
    }
    forall c | c in after.unacked
      ensures Owed(services, after, c, after.unacked[c])
    {
      StepKeepsOwed(services, s, e, c);
    }
  }

  lemma {:induction false} RunsKeepInv(services: seq<Service>, s: State, es: seq<Event>)
    requires Inv(services, s)
    ensures Inv(services, Run(services, s, es))
    decreases |es|
  {
    if es != [] {
      StepKeepsInv(services, s, es[0]);
      RunsKeepInv(services, Step(services, s, es[0]), es[1..]);
    }
  }

  // --------------------------------------------------------------------- results

  lemma InitialInv(services: seq<Service>)
    ensures Inv(services, INITIAL)
  {
    assert forall x, id :: !Holds(services, INITIAL, x, id);
  }

  /** In every interleaving a service has at most one fix command sent and not acknowledged, and is locked meanwhile. */
  lemma OneFixPerService(services: seq<Service>, es: seq<Event>, c: nat, d: nat)
    requires var s := Run(services, INITIAL, es);
             c in s.unacked && d in s.unacked && s.unacked[c] == s.unacked[d]
    ensures c == d
    ensures Run(services, INITIAL, es).unacked[c] in Run(services, INITIAL, es).inFlight
  {
    var s := Run(services, INITIAL, es);
    InitialInv(services);
    RunsKeepInv(services, INITIAL, es);
    var id := s.unacked[c];
    assert Owed(services, s, c, id) && Owed(services, s, d, id);
    var x :| Holds(services, s, x, id) && Carries(s, x, c);
    var y :| Holds(services, s, y, id) && Carries(s, y, d);
    assert Held(services, s, id);
  }

  /** An outcome other than a dispatch gives the lock back, and then nobody owes the release. */
  lemma SkippingReleases(services: seq<Service>, s: State, h: nat)
    requires Inv(services, s) && h in s.handlers && s.handlers[h].Returning?
    ensures var after := Step(services, s, Resumed(h));
            s.handlers[h].service in s.inFlight && s.handlers[h].service !in after.inFlight
            && !Held(services, after, s.handlers[h].service)
  {
    var id := s.handlers[h].service;
    assert Holds(services, s, ByHandler(h), id);
    assert Held(services, s, id);
    StepKeepsInv(services, s, Resumed(h));
  }

  /** The holder will never release: it died, or the one acknowledgement came before the group was recorded. */
  predicate Lost(s: State, x: Holder) {
    match x
    case ByHandler(h) =>
      h in s.handlers && (s.handlers[h].Thrown? || (s.handlers[h].Enqueuing? && s.handlers[h].command !in s.unacked))
    case ByGroup(c) => c !in s.unacked
    case ByAck(c) => c in s.acks && s.acks[c].thrown
  }

  ghost predicate Stuck(services: seq<Service>, s: State, id: string) {
    exists x :: Holds(services, s, x, id) && Lost(s, x)
  }

  lemma StuckStays(services: seq<Service>, s: State, e: Event, id: string)
    requires Inv(services, s) && Stuck(services, s, id)
    ensures Stuck(services, Step(services, s, e), id)
  {
    var x :| Holds(services, s, x, id) && Lost(s, x);
    if HandlerEvent(e) {
      LostAfterHandler(services, s, e, x, id);
    } else {
      LostAfterAck(services, s, e, x, id);
    }
  }

  lemma LostHandlerStays(services: seq<Service>, s: State, e: Event, h: nat, id: string)
    requires HandlerEvent(e) && Holds(services, s, ByHandler(h), id) && Lost(s, ByHandler(h))
    requires Consistent(services, s) && !(e.Resumed? && e.handler == h)
    ensures Holds(services, Step(services, s, e), ByHandler(h), id) && Lost(Step(services, s, e), ByHandler(h))
  {
  }

  lemma LostGroupStays(services: seq<Service>, s: State, e: Event, x: Holder, id: string)
    requires Consistent(services, s) && HandlerEvent(e) && Holds(services, s, x, id) && Lost(s, x) && !x.ByHandler?
    ensures Holds(services, Step(services, s, e), x, id) && Lost(Step(services, s, e), x)
  {
  }

  lemma LostAfterHandler(services: seq<Service>, s: State, e: Event, x: Holder, id: string)
    requires Consistent(services, s) && HandlerEvent(e) && Holds(services, s, x, id) && Lost(s, x)
    ensures Stuck(services, Step(services, s, e), id)
  {
    var after := Step(services, s, e);
    if e.Resumed? && x == ByHandler(e.handler) {
      var y := if s.handlers[e.handler].Enqueuing? then ByGroup(s.handlers[e.handler].command) else x;
      assert Holds(services, after, y, id) && Lost(after, y);
    } else if x.ByHandler? {
      LostHandlerStays(services, s, e, x.handler, id);
    } else {
      LostGroupStays(services, s, e, x, id);
    }
  }

  lemma LostAfterAck(services: seq<Service>, s: State, e: Event, x: Holder, id: string)
    requires Consistent(services, s) && !HandlerEvent(e) && Holds(services, s, x, id) && Lost(s, x)
    ensures Stuck(services, Step(services, s, e), id)
  {
    var after := Step(services, s, e);
    assert Holds(services, after, x, id) && Lost(after, x);
  }

  lemma {:induction false} StuckForever(services: seq<Service>, s: State, es: seq<Event>, id: string)
    requires Inv(services, s) && Stuck(services, s, id)
    ensures id in Run(services, s, es).inFlight
    decreases |es|
  {
    if es == [] {
      var x :| Holds(services, s, x, id) && Lost(s, x);
      assert Held(services, s, id);
    } else {
      StepKeepsInv(services, s, es[0]);
      StuckStays(services, s, es[0], id);
      StuckForever(services, Step(services, s, es[0]), es[1..], id);
    }
  }

  ghost predicate Releasable(services: seq<Service>, s: State, id: string) {
    exists es :: id !in Run(services, s, es).inFlight
  }

  lemma RunCons(services: seq<Service>, s: State, e: Event, es: seq<Event>)
    ensures Run(services, s, [e] + es) == Run(services, Step(services, s, e), es)
  {
    assert ([e] + es)[1..] == es;
  }

  lemma RunTwo(services: seq<Service>, s: State, e: Event, f: Event)
    ensures Run(services, s, [e]) == Step(services, s, e)
    ensures Run(services, s, [e, f]) == Step(services, Step(services, s, e), f)
  {
    RunCons(services, s, e, []);
    RunCons(services, Step(services, s, e), f, []);
    RunCons(services, s, e, [f]);
    assert [e] + [] == [e] && [f] + [] == [f] && [e] + [f] == [e, f];
  }

  /** A command recorded and not yet acknowledged: its acknowledgement frees the service. */
  lemma AckFrees(services: seq<Service>, s: State, c: nat, id: string)
    requires c in s.groups && c in s.unacked && RefersTo(services, s.groups[c], id)
    ensures id !in Step(services, Step(services, s, Ack(c)), AckResolved(c)).inFlight
    ensures Releasable(services, s, id)
  {
    RunTwo(services, s, Ack(c), AckResolved(c));
    assert id !in Run(services, s, [Ack(c), AckResolved(c)]).inFlight;
  }

  lemma LaterReleasable(services: seq<Service>, s: State, e: Event, id: string)
    requires Releasable(services, Step(services, s, e), id)
    ensures Releasable(services, s, id)
  {
    var es :| id !in Run(services, Step(services, s, e), es).inFlight;
    RunCons(services, s, e, es);
    assert id !in Run(services, s, [e] + es).inFlight;
  }

  lemma NotLostIsReleasable(services: seq<Service>, s: State, x: Holder, id: string)
    requires Inv(services, s) && Holds(services, s, x, id) && !Lost(s, x)
    ensures Releasable(services, s, id)
  {
    match x
    case ByHandler(h) =>
      var p := s.handlers[h];
      if p.ReadingKey? {
        RunTwo(services, s, KeyRead(h, false), Resumed(h));
        assert id !in Run(services, s, [KeyRead(h, false), Resumed(h)]).inFlight;
      } else if p.Returning? {
        RunTwo(services, s, Resumed(h), Resumed(h));
        assert id !in Run(services, s, [Resumed(h)]).inFlight;
      } else {
        AckFrees(services, Step(services, s, Resumed(h)), p.command, id);
        LaterReleasable(services, s, Resumed(h), id);
      }
    case ByGroup(c) => AckFrees(services, s, c, id);
    case ByAck(c) =>
      RunTwo(services, s, AckResolved(c), AckResolved(c));
      assert id !in Run(services, s, [AckResolved(c)]).inFlight;
  }

  /**
   A held lock can still be released exactly when its holder is not lost: a handler threw, the
   acknowledgement's lookup threw, or the acknowledgement came before the group was recorded.
   */
  lemma ReleasableIff(services: seq<Service>, es: seq<Event>, id: string)
    requires id in Run(services, INITIAL, es).inFlight
    ensures Releasable(services, Run(services, INITIAL, es), id) <==> !Stuck(services, Run(services, INITIAL, es), id)
  {
    var s := Run(services, INITIAL, es);
    InitialInv(services);
    RunsKeepInv(services, INITIAL, es);
    if Stuck(services, s, id) {
      forall fs
        ensures id in Run(services, s, fs).inFlight
      {
        StuckForever(services, s, fs, id);
      }
    } else {
      assert Held(services, s, id);
      var x :| Holds(services, s, x, id);
      NotLostIsReleasable(services, s, x, id);
    }
  }

  /** Nothing suspended and nothing un-acked. */
  predicate Idle(s: State) {
    && (forall h | h in s.handlers :: s.handlers[h].Thrown?)
    && (forall c | c in s.acks :: s.acks[c].thrown)
    && s.unacked == map[]
  }

  /** Once everything has come to rest, exactly the lost locks are held. */
  lemma IdleLocksAreLost(services: seq<Service>, es: seq<Event>, id: string)
    requires Idle(Run(services, INITIAL, es))
    ensures id in Run(services, INITIAL, es).inFlight <==> Stuck(services, Run(services, INITIAL, es), id)
  {
    var s := Run(services, INITIAL, es);
    InitialInv(services);
    RunsKeepInv(services, INITIAL, es);
    assert forall x | Holds(services, s, x, id) :: Lost(s, x);
    if id in s.inFlight {
      assert Held(services, s, id);
    }
  }

  lemma WebIsFound(web: Service)
    requires web == Service("s", "web", ["a"], true, true)
    ensures Lookup([web], "web") == Some(web)
    ensures Guards(Open, web, {"a"}) == None
  {
    assert FirstById([web][1..], "web") == None;
    assert "a" in web.agents && "a" in {"a"};
  }

  /** An acknowledgement between the enqueue and the recording of its group leaves the service locked for good. */
  lemma EarlyAckLocksForGood(es: seq<Event>)
    ensures var services := [Service("s", "web", ["a"], true, true)];
            var s2 := Step(services, Step(services, INITIAL, Arrive(0, "web")), Resolved(0, Open, {"a"}));
            var early := Run(services, s2, [KeyRead(0, true), Ack(0)] + [Resumed(0)]);
            early.unacked == map[] && "s" in Run(services, early, es).inFlight
  {
    var web := Service("s", "web", ["a"], true, true);
    var services := [web];
    WebIsFound(web);
    InitialInv(services);
    var s1 := Step(services, INITIAL, Arrive(0, "web"));
    assert s1 == State({}, map[], map[0 := Looking("web")], map[], map[], 0);
    var s2 := Step(services, s1, Resolved(0, Open, {"a"}));
    assert s2 == State({"s"}, map[], map[0 := ReadingKey("web", "s")], map[], map[], 0);
    StepKeepsInv(services, INITIAL, Arrive(0, "web"));
    StepKeepsInv(services, s1, Resolved(0, Open, {"a"}));
    AckedBeforeRecorded(services, s2, es);
  }

  lemma AckedBeforeRecorded(services: seq<Service>, s: State, es: seq<Event>)
    requires Inv(services, s) && s == State({"s"}, map[], map[0 := ReadingKey("web", "s")], map[], map[], 0)
    ensures var early := Run(services, s, [KeyRead(0, true), Ack(0)] + [Resumed(0)]);
            early.unacked == map[] && "s" in Run(services, early, es).inFlight
  {
    var s3 := Step(services, s, KeyRead(0, true));
    var s4 := Step(services, s3, Ack(0));
    var s5 := Step(services, s4, Resumed(0));
    assert [KeyRead(0, true), Ack(0)] + [Resumed(0)] == [KeyRead(0, true)] + [Ack(0), Resumed(0)];
    RunCons(services, s, KeyRead(0, true), [Ack(0), Resumed(0)]);
    RunTwo(services, s3, Ack(0), Resumed(0));
    assert s5 == State({"s"}, map[0 := "web"], map[], map[], map[], 1);
    StepKeepsInv(services, s, KeyRead(0, true));
    StepKeepsInv(services, s3, Ack(0));
    StepKeepsInv(services, s4, Resumed(0));
    assert Holds(services, s5, ByGroup(0), "s") && Lost(s5, ByGroup(0));
    StuckForever(services, s5, es, "s");
  }

  // ------------------------------------------------------------------- progress

  /** Nothing that makes the dispatcher skip: the group, the agents, the repository and its key are in order. */
  predicate Dispatchable(status: Status, svc: Service, online: set<string>) {
    && status in {Open, MissingAuth, Fixed}
    && (exists a :: a in svc.agents && a in online)
    && svc.hasRepo && svc.hasKeyId
  }

  /** The service that `ref` names: the one with that id, or with that name when no service has the id. */
  ghost predicate NamedBy(services: seq<Service>, ref: string, svc: Service) {
    && svc in services
    && if svc.id == ref then forall t | t in services && t.id == ref :: t == svc
       else svc.name == ref && forall t | t in services :: t.id != ref && (t.name == ref ==> t == svc)
  }

  lemma LookupNamed(services: seq<Service>, ref: string, svc: Service)
    requires NamedBy(services, ref, svc)
    ensures Lookup(services, ref) == Some(svc)
  {
    LookupMeans(services, ref);
  }

  /** Why a handler that acquired the lock does not go on, in the order the reasons are looked at. */
  lemma SkipReasons(status: Status, svc: Service, online: set<string>)
    ensures var r := Guards(status, svc, online);
            var reachable := exists a :: a in svc.agents && a in online;
            && (r == Some(SkippedPaused) <==> status == Paused)
            && (r == Some(SkippedInFlight) <==> status == Fixing)
            && (r == Some(SkippedNoAgent) <==> status !in {Paused, Fixing} && svc.agents == [])
            && (r == Some(SkippedNoOnlineAgent) <==> status !in {Paused, Fixing} && svc.agents != [] && !reachable)
            && (r == Some(SkippedNoRepo) <==> status !in {Paused, Fixing} && reachable && !svc.hasRepo)
            && (r == Some(SkippedMissingAuth) <==> status !in {Paused, Fixing} && reachable && svc.hasRepo && !svc.hasKeyId)
            && (r == None <==> Dispatchable(status, svc, online))
  {
    assert AnyOnline(svc.agents, online) <==> exists a :: a in svc.agents && a in online;
  }

  /**
   The lock is per service: whatever else is locked or under way, a handler whose service is
   found, free and dispatchable locks that service alone and sends it one fix command, the only
   one the service has; the other services' locks and commands stay.
   */
  lemma FreeServiceIsFixed(services: seq<Service>, es: seq<Event>, h: nat, svc: Service, status: Status,
                           online: set<string>)
    requires var s := Run(services, INITIAL, es);
             && h in s.handlers && s.handlers[h].Looking? && NamedBy(services, s.handlers[h].ref, svc)
             && svc.id !in s.inFlight && Dispatchable(status, svc, online)
    ensures var s := Run(services, INITIAL, es);
            var acquired := Step(services, s, Resolved(h, status, online));
            var sent := Step(services, acquired, KeyRead(h, true));
            && acquired.inFlight == s.inFlight + {svc.id} && acquired.unacked == s.unacked
            && sent.inFlight == s.inFlight + {svc.id}
            && s.next !in s.unacked && sent.unacked == s.unacked[s.next := svc.id]
            && forall c | c in sent.unacked && sent.unacked[c] == svc.id :: c == s.next
  {
    var s := Run(services, INITIAL, es);
    InitialInv(services);
    RunsKeepInv(services, INITIAL, es);
    LookupNamed(services, s.handlers[h].ref, svc);
    SkipReasons(status, svc, online);
    forall c | c in s.unacked
      ensures s.unacked[c] != svc.id
    {
      assert Owed(services, s, c, s.unacked[c]);
      assert Held(services, s, s.unacked[c]);
    }
  }

  /**
   A free service found by the handler is locked even when the dispatcher then skips it, and freed by that
   outcome.
   */
  lemma FoundIffLocked(services: seq<Service>, s: State, h: nat, svc: Service, status: Status, online: set<string>)
    requires h in s.handlers && s.handlers[h].Looking? && NamedBy(services, s.handlers[h].ref, svc)
    ensures var after := Step(services, s, Resolved(h, status, online));
            && after.inFlight == s.inFlight + {svc.id}
            && (h in after.handlers <==> svc.id !in s.inFlight)
            && after.groups == s.groups && after.unacked == s.unacked && after.acks == s.acks
            && (h in after.handlers && !Dispatchable(status, svc, online) ==>
                  && after.handlers[h] == Returning(svc.id, Guards(status, svc, online).value)
                  && Step(services, after, Resumed(h)).inFlight == s.inFlight)
  {
    LookupNamed(services, s.handlers[h].ref, svc);
    SkipReasons(status, svc, online);
  }

  /** Without key material the outcome is the missing authorisation, and nothing was sent. */
  lemma NoKeyIsMissingAuth(services: seq<Service>, s: State, h: nat)
    requires h in s.handlers && s.handlers[h].ReadingKey?
    ensures var after := Step(services, s, KeyRead(h, false));
            && after.handlers == s.handlers[h := Returning(s.handlers[h].service, SkippedMissingAuth)]
            && after.unacked == s.unacked && after.inFlight == s.inFlight
            && Step(services, after, Resumed(h)).inFlight == s.inFlight - {s.handlers[h].service}
  {
  }

  /**
   The segment that throws holds the lock for this service: a key that cannot be read, an enqueue, or an
   ack's look-up.
   */
  predicate ThrowsHolding(services: seq<Service>, s: State, e: Event, id: string) {
    || (e.KeyThrows? && e.handler in s.handlers && s.handlers[e.handler].ReadingKey? && s.handlers[e.handler].service == id)
    || (e.EnqueueThrows? && e.handler in s.handlers && s.handlers[e.handler].Enqueuing? && s.handlers[e.handler].service == id)
    || (e.AckThrows? && e.command in s.acks && RefersTo(services, s.acks[e.command].ref, id))
  }

  /** Whatever throws while it holds the lock leaves the service locked for good. */
  lemma ThrowingLocksForGood(services: seq<Service>, es: seq<Event>, e: Event, id: string, more: seq<Event>)
    requires ThrowsHolding(services, Run(services, INITIAL, es), e, id)
    ensures id in Run(services, Step(services, Run(services, INITIAL, es), e), more).inFlight
  {
    var s := Run(services, INITIAL, es);
    InitialInv(services);
    RunsKeepInv(services, INITIAL, es);
    StepKeepsInv(services, s, e);
    var after := Step(services, s, e);
    var x := if e.AckThrows? then ByAck(e.command) else ByHandler(e.handler);
    assert Holds(services, after, x, id) && Lost(after, x);
    StuckForever(services, after, more, id);
  }

  // ------------------------------------------------------------------- the server

  /** The server's two maps, with what its suspended handlers and the agents' queue hold. */
  class FixServer {
    const services: seq<Service>
    var fixInFlightByService: set<string>
    var fixCommandToGroup: map<nat, string>
    var handlers: map<nat, Phase>
    var acks: map<nat, AckPhase>
    var unacked: map<nat, string>
    var next: nat

    constructor (services: seq<Service>)
      ensures this.services == services && Model() == INITIAL && Inv(services, Model())
    {
      this.services := services;
      fixInFlightByService, fixCommandToGroup, handlers, acks, unacked, next := {}, map[], map[], map[], map[], 0;
      InitialInv(services);
    }

    function Model(): State
      reads this
    {
      State(fixInFlightByService, fixCommandToGroup, handlers, acks, unacked, next)
    }

    /** The invariant is kept by the segment about to run, if it holds. */
    lemma KeepInv(e: Event)
      ensures Inv(services, Model()) ==> Inv(services, Step(services, Model(), e))
    {
      if Inv(services, Model()) {
        StepKeepsInv(services, Model(), e);
      }
    }

    method OnErrorLine(h: nat, ref: string)
      requires h !in handlers
      modifies this
      ensures Model() == Step(services, old(Model()), Arrive(h, ref))
      ensures old(Inv(services, Model())) ==> Inv(services, Model())
    {
      KeepInv(Arrive(h, ref));
      handlers := handlers[h := Looking(ref)];
    }

    method FindService(ref: string) returns (found: Option<Service>)
      ensures found == Lookup(services, ref)
    {
      found := FirstById(services, ref);
      if found.None? {
        found := FirstByName(services, ref);
      }
    }

    method OnServiceFound(h: nat, status: Status, online: set<string>)
      requires h in handlers && handlers[h].Looking?
      modifies this
      ensures Model() == Step(services, old(Model()), Resolved(h, status, online))
      ensures old(Inv(services, Model())) ==> Inv(services, Model())
    {
      KeepInv(Resolved(h, status, online));
      var ref := handlers[h].ref;
      var found := FindService(ref);
      if found.None? || found.value.id in fixInFlightByService {
        handlers := handlers - {h};
      } else {
        fixInFlightByService := fixInFlightByService + {found.value.id};
        var outcome := Guards(status, found.value, online);
        handlers := handlers[h := if outcome.Some? then Returning(found.value.id, outcome.value)
                                  else ReadingKey(ref, found.value.id)];
      }
    }

    method OnKeyMaterial(h: nat, found: bool)
      requires h in handlers && handlers[h].ReadingKey?
      modifies this
      ensures Model() == Step(services, old(Model()), KeyRead(h, found))
      ensures old(Inv(services, Model())) ==> Inv(services, Model())
    {
      KeepInv(KeyRead(h, found));
      var ref, service := handlers[h].ref, handlers[h].service;
      if found {
        unacked := unacked[next := service];
        handlers := handlers[h := Enqueuing(ref, service, next)];
        next := next + 1;
      } else {
        handlers := handlers[h := Returning(service, SkippedMissingAuth)];
      }
    }

    method OnOutcome(h: nat)
      requires h in handlers && (handlers[h].Returning? || handlers[h].Enqueuing?)
      modifies this
      ensures Model() == Step(services, old(Model()), Resumed(h))
      ensures old(Inv(services, Model())) ==> Inv(services, Model())
    {
      KeepInv(Resumed(h));
      if handlers[h].Returning? {
        fixInFlightByService := fixInFlightByService - {handlers[h].service};
      } else {
        fixCommandToGroup := fixCommandToGroup[handlers[h].command := handlers[h].ref];
      }
      handlers := handlers - {h};
    }

    method OnCommandAck(c: nat)
      requires c in unacked
      modifies this
      ensures Model() == Step(services, old(Model()), Ack(c))
      ensures old(Inv(services, Model())) ==> Inv(services, Model())
    {
      KeepInv(Ack(c));
      unacked := unacked - {c};
      if c in fixCommandToGroup {
        acks := acks[c := AckPhase(fixCommandToGroup[c], false)];
        fixCommandToGroup := fixCommandToGroup - {c};
      }
    }

    method OnAckServiceFound(c: nat)
      requires c in acks && !acks[c].thrown
      modifies this
      ensures Model() == Step(services, old(Model()), AckResolved(c))
      ensures old(Inv(services, Model())) ==> Inv(services, Model())
    {
      KeepInv(AckResolved(c));
      var found := FindService(acks[c].ref);
      if found.Some? {
        fixInFlightByService := fixInFlightByService - {found.value.id};
      }
      acks := acks - {c};
    }
  }
}
