/**
 One agent's command link end to end: the durable list and session on the API side, the
 socket, and the agent process with its seen set, over every run of sends, deliveries,
 lost acks, disconnects, replays and agent restarts.
 */
module CommandDelivery {
  import opened Wrappers
  import opened CommandQueue

  /**
   `accepted`, `acked` and `executed` are the history the results are about: the commands
   the list took, in order; the ids whose ack the API handled; and (process, id) for every
   command the agent started.
   */
  datatype Link = Link(
    pending: seq<Command>, session: bool,
    down: seq<Command>, up: seq<string>,
    conn: bool, seen: set<string>, running: set<string>, process: nat,
    accepted: seq<Command>, acked: set<string>, executed: seq<(nat, string)>)

  datatype Event =
    | Send(c: Command)
    | Deliver
    | Finish(id: string, sent: bool)
    | AckArrives
    | Disconnect
    | Unregister
    | Connect
    | Register
    | Restart

  const IDLE := Link([], false, [], [], false, {}, {}, 0, [], {}, [])

  /** handleIncoming: a known command with a new id starts, anything else is dropped without an ack. */
  function Handle(l: Link, c: Command): Link {
    if c.id.None? || !c.known || c.id.value in l.seen then l
    else
      l.(seen := l.seen + {c.id.value}, running := l.running + {c.id.value},
         executed := l.executed + [(l.process, c.id.value)])
  }

  function Step(l: Link, e: Event, maxPending: nat): Link {
    match e
    case Send(c) =>
      var after := Enqueue(l.pending, c, maxPending);
      if after.None? then l
      else
        l.(pending := after.value,
           accepted := if ShouldEnqueue(l.pending, c) then l.accepted + [c] else l.accepted,
           down := if l.session && l.conn then l.down + [c] else l.down)
    case Deliver => if l.down == [] then l else Handle(l.(down := l.down[1..]), l.down[0])
    case Finish(id, sent) =>
      if id !in l.running then l
      else l.(running := l.running - {id}, up := if l.conn && sent then l.up + [id] else l.up)
    case AckArrives =>
      if l.up == [] then l
      else l.(up := l.up[1..], pending := Acknowledge(l.pending, l.up[0]), acked := l.acked + {l.up[0]})
    case Disconnect => l.(conn := false, down := [], up := [])
    case Unregister => l.(session := false)
    case Connect => if l.conn then l else l.(conn := true)
    case Register => if l.conn then l.(session := true, down := l.down + l.pending) else l
    case Restart => l.(conn := false, down := [], up := [], seen := {}, running := {}, process := l.process + 1)
  }

  function Run(l: Link, events: seq<Event>, maxPending: nat): Link {
    if events == [] then l
    else Step(Run(l, events[..|events| - 1], maxPending), events[|events| - 1], maxPending)
  }

  // ------------------------------------------------------- what single events do

  /** A frame without an id, of an unknown type or with an id seen before is dropped; any other one starts once. */
  lemma HandleMeans(l: Link, c: Command)
    ensures var after := Handle(l, c);
            && (c.id.None? || !c.known || c.id.value in l.seen ==> after == l)
            && (c.id.Some? && c.known && c.id.value !in l.seen ==>
                  && after.executed == l.executed + [(l.process, c.id.value)]
                  && after.running == l.running + {c.id.value} && after.seen == l.seen + {c.id.value}
                  && after.up == l.up && after.pending == l.pending)
  {
  }

  /** A finished command's ack goes out when the socket is up and the write works, and is lost for good otherwise. */
  lemma FinishMeans(l: Link, id: string, sent: bool, maxPending: nat)
    requires id in l.running
    ensures var after := Step(l, Finish(id, sent), maxPending);
            && after.up == l.up + (if l.conn && sent then [id] else [])
            && id !in after.running && after.seen == l.seen && after.pending == l.pending
            && (id in l.seen && id !in l.up && !(l.conn && sent) ==> Stuck(after, id))
  {
  }

  /** A send writes its frame only to a registered session whose socket is up; the list does not depend on either. */
  lemma SendMeans(l: Link, c: Command, maxPending: nat)
    ensures var after := Step(l, Send(c), maxPending);
            var refused := !IsListed(l.pending, c) && |l.pending| >= maxPending;
            && after.down == l.down + (if !refused && l.session && l.conn then [c] else [])
            && after.pending == l.pending + (if refused || IsListed(l.pending, c) then [] else [c])
  {
    assert ShouldEnqueue(l.pending, c) <==> !IsListed(l.pending, c);
  }

  /** A lost connection takes what was on the wire; connecting and registering again replays the list in order. */
  lemma ReconnectMeans(l: Link, maxPending: nat)
    ensures var gone := Step(l, Disconnect, maxPending);
            var back := Step(Step(gone, Connect, maxPending), Register, maxPending);
            && gone.down == [] && gone.up == [] && !gone.conn
            && back == gone.(conn := true, session := true, down := l.pending)
            && back.seen == l.seen && back.running == l.running && back.pending == l.pending
  {
    assert [] + l.pending == l.pending;
  }

  /**
   A restarted agent has seen and runs nothing and is a new process; the API drops a session without
   touching the list.
   */
  lemma RestartMeans(l: Link, maxPending: nat)
    ensures var after := Step(l, Restart, maxPending);
            && !after.conn && after.down == [] && after.up == [] && after.seen == {} && after.running == {}
            && after.process == l.process + 1 && after.pending == l.pending && after.session == l.session
    ensures Step(l, Unregister, maxPending) == l.(session := false)
  {
  }

  // --------------------------------------------------------------- invariant

  ghost predicate Executed(l: Link, id: string) {
    exists p :: (p, id) in l.executed
  }

  ghost predicate Accepted(l: Link, id: string) {
    HasId(l.accepted, id)
  }

  /** The list is the accepted commands in acceptance order, without the acknowledged ones. */
  ghost predicate ListIsHistory(l: Link) {
    DistinctIds(l.accepted) && l.pending == Unacked(l.accepted, l.acked)
  }

  ghost predicate OncePerProcess(l: Link) {
    forall i, j | 0 <= i < j < |l.executed| :: l.executed[i] != l.executed[j]
  }

  ghost predicate AgentInv(l: Link) {
    && OncePerProcess(l)
    && (forall x | x in l.executed :: x.0 <= l.process && Accepted(l, x.1))
    && (forall id :: id in l.seen <==> (l.process, id) in l.executed)
    && l.running <= l.seen
    && (forall id | id in l.up :: id in l.seen)
    && (forall id | id in l.acked :: Executed(l, id))
    && (forall c | c in l.down && c.id.Some? :: Accepted(l, c.id.value))
    && (!l.conn ==> l.down == [] && l.up == [])
  }

  ghost predicate Inv(l: Link) {
    ListIsHistory(l) && AgentInv(l)
  }

  /** Ids are never used again once acknowledged (they are random UUIDs). */
  predicate FreshId(l: Link, e: Event) {
    e.Send? && e.c.id.Some? ==> e.c.id.value !in l.acked
  }

  ghost predicate FreshIds(l: Link, events: seq<Event>, maxPending: nat) {
    events == []
    || (FreshIds(l, events[..|events| - 1], maxPending)
        && FreshId(Run(l, events[..|events| - 1], maxPending), events[|events| - 1]))
  }

  lemma SendKeepsHistory(l: Link, c: Command, maxPending: nat)
    requires Inv(l) && FreshId(l, Send(c))
    ensures ListIsHistory(Step(l, Send(c), maxPending))
  {
    var after := Step(l, Send(c), maxPending);
    if after.accepted != l.accepted {
      UnackedAppend(l.accepted, [c], l.acked);
      UnackedOfOthers([c], l.acked);
      forall i | 0 <= i < |l.accepted| && l.accepted[i].id.Some? ensures l.accepted[i].id != c.id {
        assert l.accepted[i] in l.accepted;
        assert l.accepted[i] in l.pending || l.accepted[i].id.value in l.acked;
      }
    }
  }

  lemma SendKeepsAgent(l: Link, c: Command, maxPending: nat)
    requires Inv(l)
    ensures AgentInv(Step(l, Send(c), maxPending))
  {
    var after := Step(l, Send(c), maxPending);
    forall id | Accepted(l, id) ensures Accepted(after, id) {
    }
    if c.id.Some? && Enqueue(l.pending, c, maxPending).Some? {
      assert Accepted(after, c.id.value) by {
        if after.accepted == l.accepted {
          var p :| p in l.pending && p.id == c.id;
          assert p in l.accepted;
        } else {
          assert c in after.accepted;
        }
      }
    }
  }

  lemma AckKeepsHistory(l: Link)
    requires Inv(l) && l.up != []
    ensures ListIsHistory(Step(l, AckArrives, 0))
  {
    UnackedKeepsDistinct(l.accepted, l.acked);
    AcknowledgeFilters(l.pending, l.up[0]);
    UnackedTwice(l.accepted, l.acked, {l.up[0]});
  }

  lemma HandleKeepsAgent(l: Link, c: Command)
    requires AgentInv(l) && (c.id.Some? ==> Accepted(l, c.id.value))
    ensures AgentInv(Handle(l, c))
  {
    var after := Handle(l, c);
    if after.seen != l.seen {
      var x := (l.process, c.id.value);
      assert forall y :: y in after.executed <==> y in l.executed || y == x;
      forall id | id in l.acked ensures Executed(after, id) {
        var p :| (p, id) in l.executed;
        assert (p, id) in after.executed;
      }
      forall i | 0 <= i < |l.executed| ensures after.executed[i] != x {
        assert l.executed[i] in l.executed;
      }
    }
  }

  lemma FinishKeepsAgent(l: Link, id: string, sent: bool)
    requires AgentInv(l)
    ensures AgentInv(Step(l, Finish(id, sent), 0))
  {
  }

  lemma AckKeepsAgent(l: Link)
    requires AgentInv(l)
    ensures AgentInv(Step(l, AckArrives, 0))
  {
    if l.up != [] {
      assert l.up[0] in l.up && (l.process, l.up[0]) in l.executed;
    }
  }

  lemma RegisterKeepsAgent(l: Link)
    requires Inv(l)
    ensures AgentInv(Step(l, Register, 0))
  {
    forall c | c in l.pending && c.id.Some? ensures Accepted(l, c.id.value) {
      assert c in l.accepted;
    }
  }

  lemma DeliverKeepsAgent(l: Link)
    requires AgentInv(l)
    ensures AgentInv(Step(l, Deliver, 0))
  {
    if l.down != [] {
      var c, behind := l.down[0], l.(down := l.down[1..]);
      assert c in l.down && AgentInv(behind);
      assert c.id.Some? ==> Accepted(behind, c.id.value);
      HandleKeepsAgent(behind, c);
    }
  }

  lemma RestartKeepsAgent(l: Link)
    requires AgentInv(l)
    ensures AgentInv(Step(l, Restart, 0))
  {
    assert forall x | x in l.executed :: x.0 <= l.process;
  }

  lemma SocketKeepsAgent(l: Link, e: Event)
    requires AgentInv(l) && (e.Disconnect? || e.Unregister? || e.Connect?)
    ensures AgentInv(Step(l, e, 0))
  {
  }

  lemma StepKeepsAgent(l: Link, e: Event, maxPending: nat)
    requires Inv(l) && !e.Send?
    ensures AgentInv(Step(l, e, maxPending))
  {
    match e
    case Deliver => DeliverKeepsAgent(l);
    case Restart => RestartKeepsAgent(l);
    case AckArrives => AckKeepsAgent(l);
    case Register => RegisterKeepsAgent(l);
    case Finish(id, sent) => FinishKeepsAgent(l, id, sent);
    case _ => SocketKeepsAgent(l, e);
  }

  lemma StepKeepsInv(l: Link, e: Event, maxPending: nat)
    requires Inv(l) && FreshId(l, e)
    ensures Inv(Step(l, e, maxPending))
  {
    if e.Send? {
      SendKeepsHistory(l, e.c, maxPending);
      SendKeepsAgent(l, e.c, maxPending);
    } else {
      StepKeepsAgent(l, e, maxPending);
      if e.AckArrives? && l.up != [] {
        AckKeepsHistory(l);
      }
    }
  }

  /**
   Over every run: the list is the accepted commands in order minus those acknowledged,
   what left it was executed, and no agent process executes an id twice.
   */
  lemma {:induction false} RunsKeepHistory(events: seq<Event>, maxPending: nat)
    requires FreshIds(IDLE, events, maxPending)
    ensures Inv(Run(IDLE, events, maxPending))
    ensures var l := Run(IDLE, events, maxPending);
            forall c | c in l.accepted && c !in l.pending :: c.id.Some? && Executed(l, c.id.value)
  {
    if events != [] {
      RunsKeepHistory(events[..|events| - 1], maxPending);
      StepKeepsInv(Run(IDLE, events[..|events| - 1], maxPending), events[|events| - 1], maxPending);
    }
  }

  /**
   Freshness is needed, and only for ids: a send keeps the list equal to the history iff it does not
   enqueue an acked id.
   */
  lemma HistoryIffFresh(l: Link, c: Command, maxPending: nat)
    requires Inv(l)
    ensures ListIsHistory(Step(l, Send(c), maxPending))
            <==> (c.id.Some? && c.id.value in l.acked ==> |l.pending| >= maxPending)
  {
    if c.id.Some? && c.id.value in l.acked {
      assert !HasId(l.pending, c.id.value);
      if |l.pending| < maxPending {
        var after := Step(l, Send(c), maxPending);
        assert c in after.pending;
      }
    } else {
      SendKeepsHistory(l, c, maxPending);
    }
  }

  // ------------------------------------------------- what a loss-free round delivers

  /** The agent has run `id`, and no ack of it is owed or on the way. */
  predicate Stuck(l: Link, id: string) {
    id in l.seen && id !in l.running && id !in l.up
  }

  /** No frame and no process is lost. */
  predicate LossFree(e: Event) {
    !e.Disconnect? && !e.Unregister? && !e.Restart? && (e.Finish? ==> e.sent)
  }

  lemma StuckStays(l: Link, e: Event, id: string, maxPending: nat)
    requires Stuck(l, id) && !e.Restart?
    ensures Stuck(Step(l, e, maxPending), id)
    ensures id in Step(l, e, maxPending).acked <==> id in l.acked
  {
  }

  lemma AcceptedStay(l: Link, e: Event, p: Command, maxPending: nat)
    requires p in l.accepted
    ensures p in Step(l, e, maxPending).accepted
  {
  }

  lemma LostAckStep(l: Link, e: Event, id: string, maxPending: nat)
    requires Inv(l) && FreshId(l, e) && !e.Restart?
    requires HasId(l.pending, id) && Stuck(l, id)
    ensures HasId(Step(l, e, maxPending).pending, id) && Stuck(Step(l, e, maxPending), id)
  {
    var p :| p in l.pending && p.id == Some(id);
    StepKeepsInv(l, e, maxPending);
    StuckStays(l, e, id, maxPending);
    AcceptedStay(l, e, p, maxPending);
    assert p in Step(l, e, maxPending).pending;
  }

  /** A pending command whose ack was lost stays pending over every run in which the agent process lives on. */
  lemma {:induction false} LostAckStaysPending(l: Link, events: seq<Event>, id: string, maxPending: nat)
    requires Inv(l) && FreshIds(l, events, maxPending) && HasId(l.pending, id) && Stuck(l, id)
    requires forall e | e in events :: !e.Restart?
    ensures var end := Run(l, events, maxPending); Inv(end) && HasId(end.pending, id) && Stuck(end, id)
  {
    if events != [] {
      var k := |events| - 1;
      LostAckStaysPending(l, events[..k], id, maxPending);
      StepKeepsInv(Run(l, events[..k], maxPending), events[k], maxPending);
      LostAckStep(Run(l, events[..k], maxPending), events[k], id, maxPending);
    }
  }

  ghost predicate OnTheWay(l: Link, id: string) {
    || id in l.up
    || id in l.running
    || (id !in l.seen && exists c :: c in l.down && c.known && c.id == Some(id))
  }

  /** Every listed command is on the way, is one of `stuck`, or is one the agent ignores. */
  ghost predicate Covered(l: Link, stuck: set<string>) {
    && l.conn && l.session
    && forall c | c in l.pending && c.known && c.id.Some? :: OnTheWay(l, c.id.value) || c.id.value in stuck
  }

  lemma OnTheWayStep(l: Link, e: Event, id: string, maxPending: nat)
    requires Inv(l) && FreshId(l, e) && LossFree(e) && l.conn && OnTheWay(l, id)
    ensures OnTheWay(Step(l, e, maxPending), id) || (e.AckArrives? && l.up != [] && l.up[0] == id)
  {
    var after := Step(l, e, maxPending);
    if id !in l.up && id !in l.running {
      var c :| c in l.down && c.known && c.id == Some(id);
      if e.Deliver? && l.down[0] != c {
        var j :| 0 <= j < |l.down| && l.down[j] == c;
        assert after.down[j - 1] == c;
      } else if !e.Deliver? {
        assert c in after.down;
      }
    }
  }

  lemma CoveredStep(l: Link, e: Event, stuck: set<string>, maxPending: nat)
    requires Inv(l) && FreshId(l, e) && LossFree(e) && Covered(l, stuck)
    requires forall id | id in stuck :: Stuck(l, id) && HasId(l.pending, id)
    ensures Covered(Step(l, e, maxPending), stuck)
    ensures forall id | id in stuck :: Stuck(Step(l, e, maxPending), id) && HasId(Step(l, e, maxPending).pending, id)
  {
    var after := Step(l, e, maxPending);
    forall id | id in stuck ensures Stuck(after, id) && HasId(after.pending, id) {
      LostAckStep(l, e, id, maxPending);
    }
    StepKeepsInv(l, e, maxPending);
    forall c | c in after.pending && c.known && c.id.Some?
      ensures OnTheWay(after, c.id.value) || c.id.value in stuck
    {
      if c in l.pending {
        assert c.id.value !in after.acked;
        if c.id.value !in stuck {
          OnTheWayStep(l, e, c.id.value, maxPending);
        }
      } else {
        SentIsOnTheWay(l, e, c, maxPending);
      }
    }
  }

  lemma AcceptedIsListedOrAcked(l: Link, id: string)
    requires ListIsHistory(l) && Accepted(l, id)
    ensures HasId(l.pending, id) || id in l.acked
  {
    var a :| a in l.accepted && a.id == Some(id);
    assert a in l.pending || id in l.acked;
  }

  lemma SentIsOnTheWay(l: Link, e: Event, c: Command, maxPending: nat)
    requires Inv(l) && FreshId(l, e) && LossFree(e) && l.conn && l.session
    requires c in Step(l, e, maxPending).pending && c !in l.pending && c.known && c.id.Some?
    ensures OnTheWay(Step(l, e, maxPending), c.id.value)
  {
    var after := Step(l, e, maxPending);
    if e.AckArrives? && l.up != [] {
      UnackedKeepsDistinct(l.accepted, l.acked);
      AcknowledgeFilters(l.pending, l.up[0]);
    }
    assert e == Send(c) && c in after.down;
    forall id | Accepted(l, id) ensures HasId(l.pending, id) || id in l.acked {
      AcceptedIsListedOrAcked(l, id);
    }
    assert forall id | id in l.seen :: (l.process, id) in l.executed && Accepted(l, id);
  }

  /**
   After a (re)connect and replay, any loss-free run that comes to rest leaves listed, of the
   commands the agent knows, exactly those whose ack had been lost before. A command without an
   id always stays; one of an unknown type goes only when another frame with its id was executed.
   */
  lemma LossFreeRoundDrains(l: Link, events: seq<Event>, maxPending: nat, c: Command)
    requires Inv(l) && l.conn
    requires forall e | e in events :: LossFree(e)
    requires FreshIds(Step(l, Register, maxPending), events, maxPending)
    requires var end := Run(Step(l, Register, maxPending), events, maxPending);
             end.down == [] && end.up == [] && end.running == {}
    requires c in Run(Step(l, Register, maxPending), events, maxPending).accepted
    ensures var end := Run(Step(l, Register, maxPending), events, maxPending);
            c.known && c.id.Some? ==>
              (c in end.pending <==> (HasId(l.pending, c.id.value) && Stuck(l, c.id.value)))
    ensures var end := Run(Step(l, Register, maxPending), events, maxPending);
            && (c.id.None? ==> c in end.pending)
            && (c.id.Some? && !c.known && c !in end.pending ==> Executed(end, c.id.value))
  {
    var start := Step(l, Register, maxPending);
    var stuck := set p | p in l.pending && p.id.Some? && Stuck(l, p.id.value) :: p.id.value;
    StepKeepsInv(l, Register, maxPending);
    forall p | p in l.pending && p.known && p.id.Some? ensures OnTheWay(start, p.id.value) || p.id.value in stuck {
      assert p in start.down;
    }
    RoundCovers(start, events, stuck, maxPending);
    var end := Run(start, events, maxPending);
    if c.known && c.id.Some? {
      if c in end.pending {
        assert c.id.value in stuck;
      }
      if HasId(l.pending, c.id.value) && Stuck(l, c.id.value) {
        assert c.id.value in stuck;
        var p :| p in end.pending && p.id == c.id;
        assert p in end.accepted && c.id.value !in end.acked;
      }
    }
  }

  lemma {:induction false} RoundCovers(l: Link, events: seq<Event>, stuck: set<string>, maxPending: nat)
    requires Inv(l) && Covered(l, stuck) && FreshIds(l, events, maxPending)
    requires forall e | e in events :: LossFree(e)
    requires forall id | id in stuck :: Stuck(l, id) && HasId(l.pending, id)
    ensures Inv(Run(l, events, maxPending)) && Covered(Run(l, events, maxPending), stuck)
    ensures forall id | id in stuck :: Stuck(Run(l, events, maxPending), id) && HasId(Run(l, events, maxPending).pending, id)
  {
    if events != [] {
      var k := |events| - 1;
      RoundCovers(l, events[..k], stuck, maxPending);
      StepKeepsInv(Run(l, events[..k], maxPending), events[k], maxPending);
      CoveredStep(Run(l, events[..k], maxPending), events[k], stuck, maxPending);
    }
  }

  /** Nothing is on the wire and nothing is being executed. */
  predicate AtRest(l: Link) {
    l.down == [] && l.up == [] && l.running == {}
  }

  /** Without further sends the link comes to rest: frames are delivered, commands finish, acks arrive. */
  lemma {:induction false} ComesToRest(l: Link, maxPending: nat) returns (events: seq<Event>)
    ensures forall e | e in events :: LossFree(e) && !e.Send?
    ensures AtRest(RunOn(l, events, maxPending))
    decreases |l.down|, |l.running|, |l.up|
  {
    if AtRest(l) {
      return [];
    }
    var e := Deliver;
    if l.down == [] && l.running != {} {
      var id :| id in l.running;
      e := Finish(id, true);
    } else if l.down == [] {
      e := AckArrives;
    }
    var rest := ComesToRest(Step(l, e, maxPending), maxPending);
    events := [e] + rest;
    assert events[1..] == rest;
  }

  /** `Run` from the front. */
  function RunOn(l: Link, events: seq<Event>, maxPending: nat): Link
    decreases |events|
  {
    if events == [] then l else RunOn(Step(l, events[0], maxPending), events[1..], maxPending)
  }

  lemma {:induction false} RunOnIsRun(l: Link, front: seq<Event>, events: seq<Event>, maxPending: nat)
    ensures RunOn(Run(l, front, maxPending), events, maxPending) == Run(l, front + events, maxPending)
    decreases |events|
  {
    if events == [] {
      assert front + events == front;
    } else {
      assert (front + [events[0]])[..|front|] == front;
      assert front + events == (front + [events[0]]) + events[1..];
      RunOnIsRun(l, front + [events[0]], events[1..], maxPending);
    }
  }

  /** So a loss-free round that comes to rest is always there to be had, from every state of the link. */
  lemma RoundComesToRest(l: Link, front: seq<Event>, maxPending: nat)
    ensures exists events :: (forall e | e in events :: LossFree(e) && !e.Send?) && AtRest(Run(l, front + events, maxPending))
  {
    var events := ComesToRest(Run(l, front, maxPending), maxPending);
    RunOnIsRun(l, front, events, maxPending);
  }

  // ------------------------------------------------------------------- agent

  /** The agent side as the Go client keeps it. */
  class AgentClient {
    var seenCmds: set<string>
    var active: bool
    /** The commands being executed, and the acks written to the live connection. */
    var running: set<string>
    var acks: seq<string>
    var started: seq<string>

    constructor ()
      ensures seenCmds == {} && !active && running == {} && acks == [] && started == []
    {
      seenCmds, active, running, acks, started := {}, false, {}, [], [];
    }

    /** The client's part of a link whose remaining fields are `l`'s. */
    ghost function View(l: Link): Link
      reads this
    {
      l.(conn := active, seen := seenCmds, running := running, up := acks,
         executed := seq(|started|, i requires 0 <= i < |started| reads this => (l.process, started[i])))
    }

    method HandleIncoming(c: Command, ghost l: Link)
      modifies this
      ensures View(l) == Handle(old(View(l)), c)
    {
      if c.id.None? || !c.known {
        return;
      }
      if c.id.value in seenCmds {
        return;
      }
      seenCmds := seenCmds + {c.id.value};
      running := running + {c.id.value};
      started := started + [c.id.value];
    }

    method ExecuteAndAck(id: string, sent: bool, ghost l: Link)
      requires id in running
      modifies this
      ensures View(l) == Step(old(View(l)), Finish(id, sent), 0)
    {
      running := running - {id};
      if active && sent {
        acks := acks + [id];
      }
    }
  }
}
