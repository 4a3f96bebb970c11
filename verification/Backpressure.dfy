/**
 `sendCommand` at its awaits: the duplicate check, the length check and the push are
 three Redis calls, so concurrent sends overlap. How far past its bound the list can go.
 */
module Backpressure {
  import opened Wrappers
  import opened CommandQueue

  /** A send that saw no duplicate, and one that also saw the list below the bound. */
  datatype Sender = Looked(c: Command) | Passed(c: Command)

  datatype Calls = Calls(pending: seq<Command>, senders: map<nat, Sender>)

  datatype Event = Start(h: nat, c: Command) | CheckLength(h: nat) | Push(h: nat) | Ack(id: string)

  function Step(s: Calls, e: Event, maxPending: nat): Calls {
    match e
    case Start(h, c) =>
      if h in s.senders || !ShouldEnqueue(s.pending, c) then s else s.(senders := s.senders[h := Looked(c)])
    case CheckLength(h) =>
      if h !in s.senders || !s.senders[h].Looked? then s
      else if |s.pending| >= maxPending then s.(senders := s.senders - {h})
      else s.(senders := s.senders[h := Passed(s.senders[h].c)])
    case Push(h) =>
      if h !in s.senders || !s.senders[h].Passed? then s
      else Calls(s.pending + [s.senders[h].c], s.senders - {h})
    case Ack(id) => s.(pending := Acknowledge(s.pending, id))
  }

  function Run(s: Calls, events: seq<Event>, maxPending: nat): Calls {
    if events == [] then s
    else Step(Run(s, events[..|events| - 1], maxPending), events[|events| - 1], maxPending)
  }

  /**
   Without overlap the three calls are one send: refused at the bound, a no-op for a listed id, and
   otherwise appended.
   */
  lemma SendWithoutOverlap(s: Calls, h: nat, c: Command, maxPending: nat)
    requires h !in s.senders
    ensures var looked := Step(s, Start(h, c), maxPending);
            var checked := Step(looked, CheckLength(h), maxPending);
            Step(checked, Push(h), maxPending)
            == if IsListed(s.pending, c) || |s.pending| >= maxPending then s else Calls(s.pending + [c], s.senders)
  {
    assert ShouldEnqueue(s.pending, c) <==> !IsListed(s.pending, c);
    assert s.senders[h := Looked(c)] - {h} == s.senders;
    assert s.senders[h := Looked(c)][h := Passed(c)] - {h} == s.senders;
  }

  /** An acknowledgement works on the list as it is at that moment, and disturbs no send. */
  lemma AckMeans(s: Calls, id: string, maxPending: nat)
    ensures var after := Step(s, Ack(id), maxPending);
            && after.senders == s.senders
            && (DistinctIds(s.pending) ==> after.pending == Unacked(s.pending, {id}))
  {
    if DistinctIds(s.pending) {
      AcknowledgeFilters(s.pending, id);
    }
  }

  /** Two overlapping sends of one command list it twice. */
  lemma OverlapListsTwice(c: Command, maxPending: nat)
    requires maxPending >= 1
    ensures var events := [Start(0, c), Start(1, c), CheckLength(0), CheckLength(1), Push(0), Push(1)];
            Run(Calls([], map[]), events, maxPending) == Calls([c, c], map[])
  {
    var events := [Start(0, c), Start(1, c), CheckLength(0), CheckLength(1), Push(0), Push(1)];
    var s := Calls([], map[]);
    assert events[..5] == [Start(0, c), Start(1, c), CheckLength(0), CheckLength(1), Push(0)];
    assert events[..5][..4] == [Start(0, c), Start(1, c), CheckLength(0), CheckLength(1)];
    assert events[..5][..4][..3] == [Start(0, c), Start(1, c), CheckLength(0)];
    assert events[..5][..4][..3][..2] == [Start(0, c), Start(1, c)];
    assert events[..5][..4][..3][..2][..1] == [Start(0, c)] && events[..5][..4][..3][..2][..1][..0] == [];
    assert Run(s, [], maxPending) == s;
    assert Run(s, [Start(0, c)], maxPending) == Calls([], map[0 := Looked(c)]);
    assert Run(s, events[..5][..4][..3][..2], maxPending) == Calls([], map[0 := Looked(c), 1 := Looked(c)]);
    assert Run(s, events[..5][..4][..3], maxPending) == Calls([], map[0 := Passed(c), 1 := Looked(c)]);
    assert Run(s, events[..5][..4], maxPending) == Calls([], map[0 := Passed(c), 1 := Passed(c)]);
    assert Run(s, events[..5], maxPending) == Calls([c], map[1 := Passed(c)]);
  }

  function PassedSet(s: Calls): set<nat> {
    set h | h in s.senders && s.senders[h].Passed?
  }

  /** No state of the run has more than `k` sends in flight. */
  ghost predicate AtMost(s: Calls, events: seq<Event>, k: nat, maxPending: nat) {
    |Run(s, events, maxPending).senders| <= k
    && (events == [] || AtMost(s, events[..|events| - 1], k, maxPending))
  }

  /** The pushes still to come are already counted against the bound. */
  ghost predicate Inv(s: Calls, k: nat, maxPending: nat) {
    |s.pending| + |PassedSet(s)| < maxPending + k
  }

  lemma PassedAtMostSenders(s: Calls)
    ensures |PassedSet(s)| <= |s.senders|
  {
    SubsetSize(PassedSet(s), s.senders.Keys);
  }

  lemma {:induction false} SubsetSize(a: set<nat>, b: set<nat>)
    requires a <= b
    ensures |a| <= |b|
  {
    if a != {} {
      var x :| x in a;
      SubsetSize(a - {x}, b - {x});
    }
  }

  lemma {:induction false} AcknowledgeShrinks(pending: seq<Command>, id: string)
    ensures |Acknowledge(pending, id)| <= |pending|
  {
    var m := FirstWithId(pending, id);
    if m.Some? {
      RemoveFirstLength(pending, m.value);
    }
  }

  lemma StartPasses(s: Calls, h: nat, c: Command, maxPending: nat)
    ensures PassedSet(Step(s, Start(h, c), maxPending)) == PassedSet(s)
  {
  }

  lemma RefusedPasses(s: Calls, h: nat, maxPending: nat)
    requires |s.pending| >= maxPending
    ensures PassedSet(Step(s, CheckLength(h), maxPending)) == PassedSet(s)
  {
  }

  lemma StepKeepsInv(s: Calls, e: Event, k: nat, maxPending: nat)
    requires Inv(s, k, maxPending) && |Step(s, e, maxPending).senders| <= k
    ensures Inv(Step(s, e, maxPending), k, maxPending)
  {
    var after := Step(s, e, maxPending);
    PassedAtMostSenders(after);
    match e
    case Start(h, c) => StartPasses(s, h, c, maxPending);
    case CheckLength(h) =>
      if after != s && |s.pending| >= maxPending {
        RefusedPasses(s, h, maxPending);
      }
    case Push(h) =>
      if after != s {
        assert PassedSet(after) == PassedSet(s) - {h} && h in PassedSet(s);
      }
    case Ack(id) =>
      AcknowledgeShrinks(s.pending, id);
      assert PassedSet(after) == PassedSet(s);
  }

  /** With at most `k` sends in flight the list never exceeds maxPending - 1 + k. */
  lemma {:induction false} BoundedByInFlight(events: seq<Event>, k: nat, maxPending: nat)
    requires k >= 1 && AtMost(IDLE, events, k, maxPending)
    ensures |Run(IDLE, events, maxPending).pending| <= maxPending - 1 + k
    ensures Inv(Run(IDLE, events, maxPending), k, maxPending)
  {
    if events == [] {
      assert PassedSet(IDLE) == {};
    } else {
      var init := events[..|events| - 1];
      BoundedByInFlight(init, k, maxPending);
      StepKeepsInv(Run(IDLE, init, maxPending), events[|events| - 1], k, maxPending);
    }
  }

  // ---------------------------------------------------------- the bound is met

  const FRAME := Command(None, true, "")
  const IDLE := Calls([], map[])

  function Frames(n: nat): seq<Command> {
    seq(n, _ => FRAME)
  }

  function Range(lo: nat, hi: nat): (r: set<nat>)
    requires lo <= hi
    ensures forall h :: h in r <==> lo <= h < hi
    ensures |r| == hi - lo
  {
    if lo == hi then {} else Range(lo, hi - 1) + {hi - 1}
  }

  /** Senders `gone` to `n - 1`, those below `passed` past the length check. */
  function Crowd(n: nat, passed: nat, gone: nat): (r: map<nat, Sender>)
    requires gone <= n
    ensures |r| == n - gone
    ensures forall h :: h in r <==> gone <= h < n
    ensures forall h | h in r :: r[h] == if h < passed then Passed(FRAME) else Looked(FRAME)
  {
    var r := map h | h in Range(gone, n) :: if h < passed then Passed(FRAME) else Looked(FRAME);
    assert r.Keys == Range(gone, n);
    r
  }

  /** The run keeps within `k` sends in flight and ends in `s`. */
  ghost predicate Reaches(events: seq<Event>, s: Calls, k: nat, maxPending: nat) {
    AtMost(IDLE, events, k, maxPending) && Run(IDLE, events, maxPending) == s
  }

  lemma Extend(events: seq<Event>, s: Calls, e: Event, k: nat, maxPending: nat)
    requires Reaches(events, s, k, maxPending) && |Step(s, e, maxPending).senders| <= k
    ensures Reaches(events + [e], Step(s, e, maxPending), k, maxPending)
  {
    assert (events + [e])[..|events|] == events;
  }

  /** One send run alone, from a list below the bound. */
  lemma {:induction false} Fill(n: nat, k: nat, maxPending: nat) returns (events: seq<Event>)
    requires n <= maxPending && k >= 1
    ensures Reaches(events, Calls(Frames(n), map[]), k, maxPending)
  {
    if n == 0 {
      events := [];
    } else {
      var front := Fill(n - 1, k, maxPending);
      var s0 := Calls(Frames(n - 1), map[]);
      SendAlone(n - 1, maxPending);
      Extend(front, s0, Start(0, FRAME), k, maxPending);
      var s1 := Step(s0, Start(0, FRAME), maxPending);
      Extend(front + [Start(0, FRAME)], s1, CheckLength(0), k, maxPending);
      var s2 := Step(s1, CheckLength(0), maxPending);
      events := front + [Start(0, FRAME)] + [CheckLength(0)];
      Extend(events, s2, Push(0), k, maxPending);
      events := events + [Push(0)];
    }
  }

  lemma SendAlone(n: nat, maxPending: nat)
    requires n < maxPending
    ensures var s1 := Step(Calls(Frames(n), map[]), Start(0, FRAME), maxPending);
            var s2 := Step(s1, CheckLength(0), maxPending);
            && s1.senders == map[0 := Looked(FRAME)] && s2.senders == map[0 := Passed(FRAME)]
            && Step(s2, Push(0), maxPending) == Calls(Frames(n + 1), map[])
  {
    assert Frames(n) + [FRAME] == Frames(n + 1);
    assert map[0 := Passed(FRAME)] - {0} == map[];
  }

  lemma CrowdStarts(k: nat, i: nat)
    requires i < k
    ensures i !in Crowd(i, 0, 0) && Crowd(i, 0, 0)[i := Looked(FRAME)] == Crowd(i + 1, 0, 0)
  {
  }

  lemma CrowdChecks(k: nat, i: nat)
    requires i < k
    ensures i in Crowd(k, i, 0) && Crowd(k, i, 0)[i] == Looked(FRAME)
    ensures Crowd(k, i, 0)[i := Passed(FRAME)] == Crowd(k, i + 1, 0)
  {
  }

  lemma AllStart(front: seq<Event>, base: seq<Command>, k: nat, maxPending: nat) returns (events: seq<Event>)
    requires Reaches(front, Calls(base, map[]), k, maxPending)
    ensures Reaches(events, Calls(base, Crowd(k, 0, 0)), k, maxPending)
  {
    events := front;
    assert Crowd(0, 0, 0) == map[];
    for i := 0 to k
      invariant Reaches(events, Calls(base, Crowd(i, 0, 0)), k, maxPending)
    {
      CrowdStarts(k, i);
      Extend(events, Calls(base, Crowd(i, 0, 0)), Start(i, FRAME), k, maxPending);
      events := events + [Start(i, FRAME)];
    }
  }

  lemma AllCheck(front: seq<Event>, base: seq<Command>, k: nat, maxPending: nat) returns (events: seq<Event>)
    requires Reaches(front, Calls(base, Crowd(k, 0, 0)), k, maxPending) && |base| < maxPending
    ensures Reaches(events, Calls(base, Crowd(k, k, 0)), k, maxPending)
  {
    events := front;
    for i := 0 to k
      invariant Reaches(events, Calls(base, Crowd(k, i, 0)), k, maxPending)
    {
      CrowdChecks(k, i);
      Extend(events, Calls(base, Crowd(k, i, 0)), CheckLength(i), k, maxPending);
      events := events + [CheckLength(i)];
    }
  }

  lemma PushStep(n: nat, k: nat, i: nat, maxPending: nat)
    requires i < k
    ensures Step(Calls(Frames(n), Crowd(k, k, i)), Push(i), maxPending) == Calls(Frames(n + 1), Crowd(k, k, i + 1))
  {
    assert Frames(n) + [FRAME] == Frames(n + 1);
    assert Crowd(k, k, i) - {i} == Crowd(k, k, i + 1);
  }

  lemma AllPush(front: seq<Event>, n: nat, k: nat, maxPending: nat) returns (events: seq<Event>)
    requires Reaches(front, Calls(Frames(n), Crowd(k, k, 0)), k, maxPending)
    ensures Reaches(events, Calls(Frames(n + k), Crowd(k, k, k)), k, maxPending)
  {
    events := front;
    for i := 0 to k
      invariant Reaches(events, Calls(Frames(n + i), Crowd(k, k, i)), k, maxPending)
    {
      PushStep(n + i, k, i, maxPending);
      Extend(events, Calls(Frames(n + i), Crowd(k, k, i)), Push(i), k, maxPending);
      events := events + [Push(i)];
    }
  }

  /** `k` sends that all check the length before any of them pushes reach the bound exactly. */
  lemma BoundIsMet(k: nat, maxPending: nat) returns (events: seq<Event>)
    requires k >= 1 && maxPending >= 1
    ensures AtMost(IDLE, events, k, maxPending)
    ensures |Run(IDLE, events, maxPending).pending| == maxPending - 1 + k
  {
    events := Fill(maxPending - 1, k, maxPending);
    events := AllStart(events, Frames(maxPending - 1), k, maxPending);
    events := AllCheck(events, Frames(maxPending - 1), k, maxPending);
    events := AllPush(events, maxPending - 1, k, maxPending);
  }
}
