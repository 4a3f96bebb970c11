/**
 The durable list of commands the API keeps for each agent: what `sendCommand`
 appends, what an acknowledgement removes, and the manager that holds the lists.
 */
module CommandQueue {
  import opened Wrappers

  /** A queued frame: the command id read from it, whether the agent knows its type, and the rest. */
  datatype Command = Command(id: Option<string>, known: bool, body: string)

  predicate HasId(pending: seq<Command>, id: string) {
    exists c | c in pending :: c.id == Some(id)
  }

  /** No id occurs twice; frames without an id do not matter. */
  ghost predicate DistinctIds(commands: seq<Command>) {
    forall i, j | 0 <= i < j < |commands| && commands[i].id.Some? :: commands[i].id != commands[j].id
  }

  /** The list holds a command with the id of `c`; one without an id is never held to be listed. */
  predicate IsListed(pending: seq<Command>, c: Command) {
    c.id.Some? && exists p | p in pending :: p.id == c.id
  }

  predicate ShouldEnqueue(pending: seq<Command>, c: Command) {
    c.id.Some? ==> !HasId(pending, c.id.value)
  }

  /** The list after `sendCommand`, or none when backpressure rejects the command. */
  function Enqueue(pending: seq<Command>, c: Command, maxPending: nat): Option<seq<Command>> {
    if !ShouldEnqueue(pending, c) then Some(pending)
    else if |pending| >= maxPending then None
    else Some(pending + [c])
  }

  /** `lrem key 1 m`: drop the first occurrence. */
  function RemoveFirst(pending: seq<Command>, m: Command): seq<Command> {
    if pending == [] then []
    else if pending[0] == m then pending[1..]
    else [pending[0]] + RemoveFirst(pending[1..], m)
  }

  /** The delete-and-repush fallback: every entry equal to `m` is left out. */
  function RemoveEvery(pending: seq<Command>, m: Command): seq<Command> {
    if pending == [] then []
    else
      var k := |pending| - 1;
      RemoveEvery(pending[..k], m) + (if pending[k] == m then [] else [pending[k]])
  }

  function FirstWithId(pending: seq<Command>, id: string): (r: Option<Command>)
    ensures r.Some? ==> r.value in pending && r.value.id == Some(id)
    ensures r.None? <==> !HasId(pending, id)
  {
    if pending == [] then None
    else if pending[0].id == Some(id) then Some(pending[0])
    else
      assert HasId(pending, id) <==> HasId(pending[1..], id);
      FirstWithId(pending[1..], id)
  }

  function Acknowledge(pending: seq<Command>, id: string): seq<Command> {
    match FirstWithId(pending, id)
    case None => pending
    case Some(m) => RemoveFirst(pending, m)
  }

  /** `commands` in order, without those whose id is in `acked`. */
  function Unacked(commands: seq<Command>, acked: set<string>): (r: seq<Command>)
    ensures forall c :: c in r <==> c in commands && (c.id.Some? ==> c.id.value !in acked)
  {
    if commands == [] then []
    else
      var rest := Unacked(commands[1..], acked);
      if commands[0].id.Some? && commands[0].id.value in acked then rest else [commands[0]] + rest
  }

  // ------------------------------------------------------------------ lemmas

  lemma {:induction false} UnackedAppend(a: seq<Command>, b: seq<Command>, acked: set<string>)
    ensures Unacked(a + b, acked) == Unacked(a, acked) + Unacked(b, acked)
  {
    if a == [] {
      assert a + b == b;
    } else {
      assert (a + b)[1..] == a[1..] + b;
      UnackedAppend(a[1..], b, acked);
    }
  }

  lemma {:induction false} UnackedTwice(a: seq<Command>, acked: set<string>, more: set<string>)
    ensures Unacked(Unacked(a, acked), more) == Unacked(a, acked + more)
  {
    if a != [] {
      UnackedTwice(a[1..], acked, more);
      var rest := Unacked(a[1..], acked);
      assert ([a[0]] + rest)[1..] == rest;
    }
  }

  lemma {:induction false} UnackedOfOthers(a: seq<Command>, acked: set<string>)
    requires forall c | c in a && c.id.Some? :: c.id.value !in acked
    ensures Unacked(a, acked) == a
  {
    if a != [] {
      UnackedOfOthers(a[1..], acked);
    }
  }

  lemma {:induction false} UnackedKeepsDistinct(a: seq<Command>, acked: set<string>)
    requires DistinctIds(a)
    ensures DistinctIds(Unacked(a, acked))
  {
    if a != [] {
      UnackedKeepsDistinct(a[1..], acked);
      var rest := Unacked(a[1..], acked);
      forall j | 0 <= j < |rest| && a[0].id.Some? ensures rest[j].id != a[0].id {
        assert rest[j] in a[1..];
      }
    }
  }

  lemma OthersUnacked(pending: seq<Command>, id: string)
    requires DistinctIds(pending) && pending != [] && pending[0].id == Some(id)
    ensures Unacked(pending[1..], {id}) == pending[1..]
  {
    forall c | c in pending[1..] && c.id.Some? ensures c.id.value !in {id} {
      var j :| 0 <= j < |pending[1..]| && pending[1..][j] == c;
      assert pending[j + 1] == c;
    }
    UnackedOfOthers(pending[1..], {id});
  }

  lemma AcknowledgeBehind(pending: seq<Command>, id: string)
    requires pending != [] && pending[0].id != Some(id)
    ensures Acknowledge(pending, id) == [pending[0]] + Acknowledge(pending[1..], id)
  {
    assert HasId(pending, id) <==> HasId(pending[1..], id);
    assert pending == [pending[0]] + pending[1..];
  }

  /** With distinct ids an acknowledgement removes exactly the entry it names. */
  lemma {:induction false} AcknowledgeFilters(pending: seq<Command>, id: string)
    requires DistinctIds(pending)
    ensures Acknowledge(pending, id) == Unacked(pending, {id})
  {
    if pending != [] {
      if pending[0].id == Some(id) {
        OthersUnacked(pending, id);
      } else {
        AcknowledgeFilters(pending[1..], id);
        AcknowledgeBehind(pending, id);
      }
    }
  }

  lemma RemoveEveryNext(pending: seq<Command>, i: nat, m: Command)
    requires i < |pending|
    ensures RemoveEvery(pending[..i + 1], m)
            == if pending[i] == m then RemoveEvery(pending[..i], m) else RemoveEvery(pending[..i], m) + [pending[i]]
  {
    assert pending[..i + 1][..i] == pending[..i];
    assert RemoveEvery(pending[..i], m) + [] == RemoveEvery(pending[..i], m);
  }

  lemma {:induction false} RemoveEveryAbsent(pending: seq<Command>, m: Command)
    requires m !in pending
    ensures RemoveEvery(pending, m) == pending
  {
    if pending != [] {
      var k := |pending| - 1;
      assert pending == pending[..k] + [pending[k]];
      RemoveEveryAbsent(pending[..k], m);
    }
  }

  lemma {:induction false} RemoveEveryAppend(a: seq<Command>, b: seq<Command>, m: Command)
    ensures RemoveEvery(a + b, m) == RemoveEvery(a, m) + RemoveEvery(b, m)
  {
    if b == [] {
      assert a + b == a;
    } else {
      var k := |b| - 1;
      assert (a + b)[..|a| + k] == a + b[..k];
      RemoveEveryAppend(a, b[..k], m);
    }
  }

  lemma CountLast(pending: seq<Command>, k: nat, m: Command)
    requires |pending| == k + 1
    ensures multiset(pending)[m] == multiset(pending[..k])[m] + if pending[k] == m then 1 else 0
  {
    assert pending == pending[..k] + [pending[k]];
  }

  lemma {:induction false} RemoveEveryLength(pending: seq<Command>, m: Command)
    ensures |RemoveEvery(pending, m)| == |pending| - multiset(pending)[m]
  {
    if pending != [] {
      var k := |pending| - 1;
      RemoveEveryLength(pending[..k], m);
      CountLast(pending, k, m);
    }
  }

  lemma {:induction false} RemoveFirstLength(pending: seq<Command>, m: Command)
    requires m in pending
    ensures |RemoveFirst(pending, m)| == |pending| - 1
  {
    if pending[0] != m {
      RemoveFirstLength(pending[1..], m);
    }
  }

  lemma RemoveEveryFront(pending: seq<Command>, m: Command)
    requires pending != []
    ensures RemoveEvery(pending, m) == (if pending[0] == m then [] else [pending[0]]) + RemoveEvery(pending[1..], m)
    ensures multiset(pending)[m] == multiset(pending[1..])[m] + if pending[0] == m then 1 else 0
  {
    assert pending == [pending[0]] + pending[1..];
    RemoveEveryAppend([pending[0]], pending[1..], m);
    assert [pending[0]][..0] == [];
  }

  lemma {:induction false} QueuedOnce(pending: seq<Command>, m: Command)
    requires multiset(pending)[m] == 1
    ensures RemoveEvery(pending, m) == RemoveFirst(pending, m)
  {
    RemoveEveryFront(pending, m);
    if pending[0] == m {
      RemoveEveryAbsent(pending[1..], m);
    } else {
      QueuedOnce(pending[1..], m);
    }
  }

  /** The fallback does what `lrem` does exactly when the matched frame is queued once. */
  lemma FallbackIffQueuedOnce(pending: seq<Command>, m: Command)
    requires m in pending
    ensures RemoveEvery(pending, m) == RemoveFirst(pending, m) <==> multiset(pending)[m] == 1
  {
    RemoveEveryLength(pending, m);
    RemoveFirstLength(pending, m);
    if multiset(pending)[m] == 1 {
      QueuedOnce(pending, m);
    }
  }

  /** Atomic sends keep ids distinct and the list within its bound. */
  lemma EnqueueKeeps(pending: seq<Command>, c: Command, maxPending: nat)
    requires DistinctIds(pending) && |pending| <= maxPending && Enqueue(pending, c, maxPending).Some?
    ensures var after := Enqueue(pending, c, maxPending).value;
            && DistinctIds(after) && |after| <= maxPending && pending <= after
            && (c.id.Some? ==> HasId(after, c.id.value))
  {
    var after := Enqueue(pending, c, maxPending).value;
    if ShouldEnqueue(pending, c) {
      assert after[|pending|] == c;
      forall i | 0 <= i < |pending| && pending[i].id.Some? ensures pending[i].id != c.id {
        assert pending[i] in pending;
      }
    }
  }

  // ----------------------------------------------------------------- manager

  datatype SendResult = Backpressure | Offline | Dispatched(queued: bool, delivered: bool)

  class RealtimeManager {
    const maxPending: nat
    /** A Redis connection is configured, and its client offers `lrem`. */
    const durable: bool
    const hasLrem: bool
    var lists: map<string, seq<Command>>
    var sessions: set<string>
    /** Every frame written to each agent's socket. */
    var written: map<string, seq<Command>>

    constructor (maxPending: nat, durable: bool, hasLrem: bool)
      ensures this.maxPending == maxPending && this.durable == durable && this.hasLrem == hasLrem
      ensures lists == map[] && sessions == {} && written == map[]
    {
      this.maxPending, this.durable, this.hasLrem := maxPending, durable, hasLrem;
      lists, sessions, written := map[], {}, map[];
    }

    function Pending(agent: string): seq<Command>
      reads this
    {
      if agent in lists then lists[agent] else []
    }

    function Written(agent: string): seq<Command>
      reads this
    {
      if agent in written then written[agent] else []
    }

    twostate predicate OthersUnchanged(agent: string)
      reads this
    {
      forall a | a != agent :: Pending(a) == old(Pending(a)) && Written(a) == old(Written(a))
                               && (a in sessions <==> a in old(sessions))
    }

    method RegisterAgent(agent: string)
      modifies this
      ensures sessions == old(sessions) + {agent} && OthersUnchanged(agent)
      ensures Pending(agent) == old(Pending(agent))
      ensures Written(agent) == old(Written(agent)) + (if durable then old(Pending(agent)) else [])
    {
      sessions := sessions + {agent};
      if durable {
        var pending := Pending(agent);
        for i := 0 to |pending|
          invariant lists == old(lists) && sessions == old(sessions) + {agent}
          invariant Written(agent) == old(Written(agent)) + pending[..i] && OthersUnchanged(agent)
        {
          written := written[agent := Written(agent) + [pending[i]]];
        }
      }
    }

    method UnregisterAgent(agent: string)
      modifies this
      ensures sessions == old(sessions) - {agent} && OthersUnchanged(agent)
      ensures Pending(agent) == old(Pending(agent)) && Written(agent) == old(Written(agent))
    {
      sessions := sessions - {agent};
    }

    method SendCommand(agent: string, c: Command) returns (result: SendResult)
      modifies this
      ensures sessions == old(sessions) && OthersUnchanged(agent)
      ensures result == Backpressure
              <==> durable && !IsListed(old(Pending(agent)), c) && |old(Pending(agent))| >= maxPending
      ensures result == Offline <==> !durable && agent !in sessions
      ensures result.Dispatched? ==> result == Dispatched(durable, agent in sessions)
      ensures Pending(agent) == old(Pending(agent)) + if durable && result.Dispatched? && !IsListed(old(Pending(agent)), c)
                                                      then [c] else []
      ensures durable && result.Dispatched? ==> Enqueue(old(Pending(agent)), c, maxPending) == Some(Pending(agent))
      ensures durable && result == Backpressure ==> Enqueue(old(Pending(agent)), c, maxPending) == None
      ensures Written(agent) == if result.Dispatched? && result.delivered
                                then old(Written(agent)) + [c] else old(Written(agent))
    {
      if durable {
        var pending := Pending(agent);
        if ShouldEnqueue(pending, c) {
          if |pending| >= maxPending {
            return Backpressure;
          }
          lists := lists[agent := pending + [c]];
        }
      }
      var delivered := agent in sessions;
      if delivered {
        written := written[agent := Written(agent) + [c]];
      }
      if !durable && !delivered {
        return Offline;
      }
      return Dispatched(durable, delivered);
    }

    /** The path for clients without `lrem`: delete the list and push back what is kept. */
    method RepushWithout(agent: string, m: Command)
      modifies this`lists
      ensures OthersUnchanged(agent)
      ensures Pending(agent) == RemoveEvery(old(Pending(agent)), m)
    {
      var pending := Pending(agent);
      lists := lists - {agent};
      var kept := 0;
      for i := 0 to |pending|
        invariant OthersUnchanged(agent)
        invariant Pending(agent) == RemoveEvery(pending[..i], m) && kept == |Pending(agent)|
      {
        RemoveEveryNext(pending, i, m);
        if pending[i] != m {
          lists := lists[agent := Pending(agent) + [pending[i]]];
          kept := kept + 1;
        }
      }
      assert pending[..|pending|] == pending;
      if kept == 0 {
        lists := lists - {agent};
      }
    }

    method RemovePendingByCommandId(agent: string, id: string) returns (removed: bool)
      modifies this`lists
      ensures OthersUnchanged(agent)
      ensures removed <==> durable && HasId(old(Pending(agent)), id)
      ensures durable && (hasLrem || DistinctIds(old(Pending(agent)))) ==>
                Pending(agent) == Acknowledge(old(Pending(agent)), id)
      ensures durable && !hasLrem && removed ==>
                Pending(agent) == RemoveEvery(old(Pending(agent)), FirstWithId(old(Pending(agent)), id).value)
      ensures !removed ==> Pending(agent) == old(Pending(agent))
    {
      if !durable {
        return false;
      }
      var pending := Pending(agent);
      var found := FirstWithId(pending, id);
      if found.None? {
        return false;
      }
      if DistinctIds(pending) {
        DistinctQueuedOnce(pending, found.value);
        FallbackIffQueuedOnce(pending, found.value);
      }
      if hasLrem {
        lists := lists[agent := RemoveFirst(pending, found.value)];
      } else {
        RepushWithout(agent, found.value);
      }
      return true;
    }
  }

  lemma {:induction false} DistinctQueuedOnce(pending: seq<Command>, m: Command)
    requires DistinctIds(pending) && m in pending && m.id.Some?
    ensures multiset(pending)[m] == 1
  {
    assert pending == [pending[0]] + pending[1..];
    if pending[0] == m {
      forall j | 0 <= j < |pending| - 1 ensures pending[1..][j] != m {
        assert pending[0].id != pending[j + 1].id;
      }
      assert m !in pending[1..];
    } else {
      DistinctQueuedOnce(pending[1..], m);
    }
  }
}
