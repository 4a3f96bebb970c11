/**
 The incident cooldown: an event of a key is suppressed while less than the cooldown has
 passed since the last accepted one. The in-memory store keys incidents by tenant, service
 and fingerprint, the state-passing form by the fingerprint alone.
 */
module Cooldown {
  import opened Wrappers

  /** `eligible` when the level or a detector lets the message through; times are in milliseconds. */
  datatype LogEvent = LogEvent(key: string, time: int, eligible: bool)

  datatype Verdict = Ignored | Suppressed | Created

  /** The time of the last accepted event of each key. */
  type Seen = map<string, int>

  function Judge(seen: Seen, e: LogEvent, cooldown: nat): Verdict {
    if !e.eligible then Ignored
    else if e.key in seen && e.time - seen[e.key] < cooldown then Suppressed
    else Created
  }

  function After(seen: Seen, e: LogEvent, cooldown: nat): Seen {
    if Judge(seen, e, cooldown).Created? then seen[e.key := e.time] else seen
  }

  function SeenAfter(events: seq<LogEvent>, cooldown: nat): Seen {
    if events == [] then map[]
    else After(SeenAfter(events[..|events| - 1], cooldown), events[|events| - 1], cooldown)
  }

  predicate Accepted(events: seq<LogEvent>, i: nat, cooldown: nat)
    requires i < |events|
  {
    Judge(SeenAfter(events[..i], cooldown), events[i], cooldown).Created?
  }

  // ---------------------------------------------------------------------- spacing

  /** The store holds the last accepted time of a key, and every earlier accepted one lies no later. */
  lemma {:induction false} SeenIsLatest(events: seq<LogEvent>, i: nat, cooldown: nat)
    requires i < |events| && Accepted(events, i, cooldown)
    ensures events[i].key in SeenAfter(events, cooldown)
    ensures events[i].time <= SeenAfter(events, cooldown)[events[i].key]
    decreases |events|
  {
    var front := events[..|events| - 1];
    if i < |front| {
      assert front[..i] == events[..i];
      SeenIsLatest(front, i, cooldown);
    }
  }

  /** Two accepted incidents of a key are at least the cooldown apart, the later event being the later in time. */
  lemma AcceptedAreSpaced(events: seq<LogEvent>, i: nat, j: nat, cooldown: nat)
    requires i < j < |events| && events[i].key == events[j].key
    requires Accepted(events, i, cooldown) && Accepted(events, j, cooldown)
    ensures events[j].time - events[i].time >= cooldown
  {
    assert events[..j][..i] == events[..i];
    SeenIsLatest(events[..j], i, cooldown);
  }

  // ------------------------------------------------------------------- optimality

  function CountAccepted(events: seq<LogEvent>, key: string, cooldown: nat): nat {
    if events == [] then 0
    else
      var front, e := events[..|events| - 1], events[|events| - 1];
      CountAccepted(front, key, cooldown)
      + if e.key == key && Judge(SeenAfter(front, cooldown), e, cooldown).Created? then 1 else 0
  }

  ghost predicate TimeOrdered(events: seq<LogEvent>, key: string) {
    forall i, j | 0 <= i < j < |events| && events[i].key == key && events[j].key == key ::
      events[i].time <= events[j].time
  }

  /** A choice of eligible events of the key, each at least the cooldown after the one before. */
  ghost predicate SpacedChoice(events: seq<LogEvent>, key: string, pick: seq<nat>, cooldown: nat) {
    && (forall a | 0 <= a < |pick| :: pick[a] < |events| && events[pick[a]].key == key && events[pick[a]].eligible)
    && (forall a | 0 < a < |pick| ::
          pick[a - 1] < pick[a] && events[pick[a]].time - events[pick[a - 1]].time >= cooldown)
  }

  /** While nothing more of a key is accepted its last accepted time stays. */
  lemma {:induction false} CountAndSeenMove(events: seq<LogEvent>, m: nat, n: nat, key: string, cooldown: nat)
    requires m <= n <= |events|
    ensures CountAccepted(events[..m], key, cooldown) <= CountAccepted(events[..n], key, cooldown)
    ensures CountAccepted(events[..m], key, cooldown) == CountAccepted(events[..n], key, cooldown) ==>
              var a, b := SeenAfter(events[..m], cooldown), SeenAfter(events[..n], cooldown);
              (key in a <==> key in b) && (key in a ==> a[key] == b[key])
    decreases n
  {
    if m < n {
      CountAndSeenMove(events, m, n - 1, key, cooldown);
      assert events[..n][..n - 1] == events[..n - 1];
    }
  }

  lemma {:induction false} SeenWasAccepted(events: seq<LogEvent>, key: string, cooldown: nat) returns (i: nat)
    requires key in SeenAfter(events, cooldown)
    ensures i < |events| && events[i].key == key && SeenAfter(events, cooldown)[key] == events[i].time
  {
    var front := events[..|events| - 1];
    if events[|events| - 1].key == key && Judge(SeenAfter(front, cooldown), events[|events| - 1], cooldown).Created? {
      i := |events| - 1;
    } else {
      i := SeenWasAccepted(front, key, cooldown);
    }
  }

  lemma {:induction false} SeenMeansCounted(events: seq<LogEvent>, key: string, cooldown: nat)
    requires key in SeenAfter(events, cooldown)
    ensures CountAccepted(events, key, cooldown) > 0
  {
    var front, e := events[..|events| - 1], events[|events| - 1];
    if !(e.key == key && Judge(SeenAfter(front, cooldown), e, cooldown).Created?) {
      SeenMeansCounted(front, key, cooldown);
    }
  }

  /** By an eligible event of the key at least one has been accepted. */
  lemma FirstOne(events: seq<LogEvent>, key: string, m: nat, cooldown: nat)
    requires m < |events| && events[m].key == key && events[m].eligible
    ensures CountAccepted(events[..m + 1], key, cooldown) >= 1
  {
    assert events[..m + 1][..m] == events[..m];
    if key in SeenAfter(events[..m], cooldown) {
      SeenMeansCounted(events[..m], key, cooldown);
    }
  }

  /** An eligible event the cooldown after another one adds an accepted event since that one. */
  lemma OneMore(events: seq<LogEvent>, key: string, l: nat, m: nat, cooldown: nat)
    requires TimeOrdered(events, key) && l < m < |events|
    requires events[l].key == key && events[m].key == key && events[m].eligible
    requires events[m].time - events[l].time >= cooldown
    ensures CountAccepted(events[..m + 1], key, cooldown) > CountAccepted(events[..l + 1], key, cooldown)
  {
    assert events[..m + 1][..m] == events[..m];
    CountAndSeenMove(events, l + 1, m, key, cooldown);
    if key in SeenAfter(events[..l + 1], cooldown) {
      var i := SeenWasAccepted(events[..l + 1], key, cooldown);
      assert events[..l + 1][i] == events[i];
      assert events[i].time <= events[l].time;
    }
  }

  /** Greedy acceptance stays ahead of every spaced choice, up to each of its events. */
  lemma {:induction false} StaysAhead(events: seq<LogEvent>, key: string, pick: seq<nat>, cooldown: nat)
    requires TimeOrdered(events, key) && SpacedChoice(events, key, pick, cooldown) && pick != []
    ensures |pick| <= CountAccepted(events[..pick[|pick| - 1] + 1], key, cooldown)
    decreases |pick|
  {
    var m := pick[|pick| - 1];
    if |pick| == 1 {
      FirstOne(events, key, m, cooldown);
    } else {
      StaysAhead(events, key, pick[..|pick| - 1], cooldown);
      OneMore(events, key, pick[|pick| - 2], m, cooldown);
    }
  }

  /** For events of a key in time order, no choice spaced by the cooldown is larger than what is accepted. */
  lemma GreedyIsOptimal(events: seq<LogEvent>, key: string, pick: seq<nat>, cooldown: nat)
    requires TimeOrdered(events, key) && SpacedChoice(events, key, pick, cooldown)
    ensures |pick| <= CountAccepted(events, key, cooldown)
  {
    if pick != [] {
      StaysAhead(events, key, pick, cooldown);
      var m := pick[|pick| - 1];
      assert m < |events|;
      CountAndSeenMove(events, m + 1, |events|, key, cooldown);
      assert events[..|events|] == events;
    }
  }

  lemma ChoiceOfMore(front: seq<LogEvent>, e: LogEvent, key: string, pick: seq<nat>, cooldown: nat)
    requires SpacedChoice(front, key, pick, cooldown)
    ensures SpacedChoice(front + [e], key, pick, cooldown)
    ensures e.key == key && e.eligible && (pick != [] ==> e.time - front[pick[|pick| - 1]].time >= cooldown) ==>
              SpacedChoice(front + [e], key, pick + [|front|], cooldown)
  {
  }

  /** The accepted events themselves are such a choice, so the bound is reached. */
  lemma {:induction false} AcceptedIsAChoice(events: seq<LogEvent>, key: string, cooldown: nat) returns (pick: seq<nat>)
    ensures SpacedChoice(events, key, pick, cooldown) && |pick| == CountAccepted(events, key, cooldown)
    ensures pick == [] ==> key !in SeenAfter(events, cooldown)
    ensures pick != [] ==> key in SeenAfter(events, cooldown)
                           && SeenAfter(events, cooldown)[key] == events[pick[|pick| - 1]].time
    decreases |events|
  {
    if events == [] {
      pick := [];
    } else {
      var front, e := events[..|events| - 1], events[|events| - 1];
      pick := AcceptedIsAChoice(front, key, cooldown);
      ChoiceOfMore(front, e, key, pick, cooldown);
      assert front + [e] == events;
      if e.key == key && Judge(SeenAfter(front, cooldown), e, cooldown).Created? {
        pick := pick + [|events| - 1];
      }
    }
  }

  /**
   Without the time order the greedy choice can be beaten: a late event hides two earlier ones that arrive
   after it.
   */
  lemma OutOfOrderIsNotOptimal()
    ensures var events := [LogEvent("k", 100, true), LogEvent("k", 0, true), LogEvent("k", 50, true)];
            SpacedChoice(events, "k", [1, 2], 50) && CountAccepted(events, "k", 50) == 1
  {
    var events := [LogEvent("k", 100, true), LogEvent("k", 0, true), LogEvent("k", 50, true)];
    assert events[..1] == [LogEvent("k", 100, true)] && events[..1][..0] == [];
    assert events[..2][..1] == events[..1] && events[..3] == events && events[..2] == events[..|events| - 1];
    assert SeenAfter(events[..1], 50) == map["k" := 100];
    assert SeenAfter(events[..2], 50) == map["k" := 100];
    assert CountAccepted(events[..1], "k", 50) == 1;
    assert CountAccepted(events[..2], "k", 50) == 1;
  }

  // ------------------------------------------------------------------------- keys

  function IncidentKey(tenant: string, service: string, fingerprint: string): string {
    tenant + ":" + service + ":" + fingerprint
  }

  /** Text before the first colon, and behind it, can be told apart. */
  lemma FirstColon(a: string, b: string, x: string, y: string)
    requires ':' !in a && ':' !in b && a + ":" + x == b + ":" + y
    ensures a == b && x == y
  {
    var s := a + ":" + x;
    assert s[|a|] == ':' && s[|b|] == ':';
    assert forall i | 0 <= i < |a| :: s[i] == a[i];
    assert forall i | 0 <= i < |b| :: s[i] == b[i];
    assert |a| == |b|;
    assert s[..|a|] == a && s[..|b|] == b;
    assert s[|a| + 1..] == x && s[|b| + 1..] == y;
  }

  /** Incidents are kept apart by the key when tenants and services hold no colon. */
  lemma KeysApart(t1: string, s1: string, f1: string, t2: string, s2: string, f2: string)
    requires ':' !in t1 && ':' !in s1 && ':' !in t2 && ':' !in s2
    ensures IncidentKey(t1, s1, f1) == IncidentKey(t2, s2, f2) <==> t1 == t2 && s1 == s2 && f1 == f2
  {
    if IncidentKey(t1, s1, f1) == IncidentKey(t2, s2, f2) {
      assert IncidentKey(t1, s1, f1) == t1 + ":" + (s1 + ":" + f1);
      assert IncidentKey(t2, s2, f2) == t2 + ":" + (s2 + ":" + f2);
      FirstColon(t1, t2, s1 + ":" + f1, s2 + ":" + f2);
      FirstColon(s1, s2, f1, f2);
    }
  }

  /** What stands before the fingerprint in a key. */
  function KeyPrefix(tenant: string, service: string): string {
    tenant + ":" + service + ":"
  }

  /** Two tenants' services can share a key exactly when one's prefix begins the other's. */
  lemma KeysClashIff(t1: string, s1: string, t2: string, s2: string)
    ensures (exists f1, f2 :: IncidentKey(t1, s1, f1) == IncidentKey(t2, s2, f2))
            <==> KeyPrefix(t1, s1) <= KeyPrefix(t2, s2) || KeyPrefix(t2, s2) <= KeyPrefix(t1, s1)
  {
    var p, q := KeyPrefix(t1, s1), KeyPrefix(t2, s2);
    if f1, f2 :| IncidentKey(t1, s1, f1) == IncidentKey(t2, s2, f2) {
      var key := IncidentKey(t1, s1, f1);
      assert key == p + f1 && key == q + f2;
      assert key[..|p|] == p && key[..|q|] == q;
    }
    if p <= q {
      assert IncidentKey(t1, s1, q[|p|..]) == p + q[|p|..] == q;
      assert IncidentKey(t2, s2, "") == q;
    } else if q <= p {
      assert IncidentKey(t2, s2, p[|q|..]) == q + p[|q|..] == p;
      assert IncidentKey(t1, s1, "") == p;
    }
  }

  /** And then only for the fingerprints that make up the difference. */
  lemma SharedKeyIff(t1: string, s1: string, f1: string, t2: string, s2: string, f2: string)
    requires KeyPrefix(t1, s1) <= KeyPrefix(t2, s2)
    ensures IncidentKey(t1, s1, f1) == IncidentKey(t2, s2, f2) <==> f1 == KeyPrefix(t2, s2)[|KeyPrefix(t1, s1)|..] + f2
  {
    var p, q := KeyPrefix(t1, s1), KeyPrefix(t2, s2);
    assert q == p + q[|p|..];
    assert IncidentKey(t2, s2, f2) == p + (q[|p|..] + f2);
    assert IncidentKey(t1, s1, f1) == p + f1;
    assert (p + f1)[|p|..] == f1 && (p + (q[|p|..] + f2))[|p|..] == q[|p|..] + f2;
  }

  /** Otherwise one tenant's incident can suppress another's. */
  lemma KeysClash()
    ensures IncidentKey("a:b", "c", "f") == IncidentKey("a", "b:c", "f")
  {
  }

  // -------------------------------------------------------------------- the store

  class IncidentStore {
    var incidents: map<string, int>
    const cooldown: nat

    constructor (cooldown: nat)
      ensures this.cooldown == cooldown && incidents == map[]
    {
      this.cooldown, incidents := cooldown, map[];
    }

    method FindOpen(tenant: string, service: string, fingerprint: string) returns (lastSeen: Option<int>)
      ensures lastSeen == if IncidentKey(tenant, service, fingerprint) in incidents
                          then Some(incidents[IncidentKey(tenant, service, fingerprint)]) else None
    {
      var key := IncidentKey(tenant, service, fingerprint);
      lastSeen := if key in incidents then Some(incidents[key]) else None;
    }

    method Upsert(tenant: string, service: string, fingerprint: string, detectedAt: int)
      modifies this`incidents
      ensures incidents == old(incidents)[IncidentKey(tenant, service, fingerprint) := detectedAt]
    {
      incidents := incidents[IncidentKey(tenant, service, fingerprint) := detectedAt];
    }

    method ProcessJob(tenant: string, service: string, fingerprint: string, time: int, eligible: bool)
      returns (verdict: Verdict)
      modifies this`incidents
      ensures var e := LogEvent(IncidentKey(tenant, service, fingerprint), time, eligible);
              verdict == Judge(old(incidents), e, cooldown) && incidents == After(old(incidents), e, cooldown)
    {
      if !eligible {
        return Ignored;
      }
      var existing := FindOpen(tenant, service, fingerprint);
      if existing.Some? && time - existing.value < cooldown {
        return Suppressed;
      }
      Upsert(tenant, service, fingerprint, time);
      verdict := Created;
    }
  }
}
