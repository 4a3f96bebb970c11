/**
 The agent's docker mode: redeploying and tearing down the containers of a service. The agent
 runs each command in its own goroutine, so the two are also run interleaved, one docker call
 at a time.
 */
module DockerRedeploy {
  import opened Numerals

  const DEFAULT_NAMESPACE: string := "kaiad"

  /** `service` and `ns` are the labels, "" when absent. */
  datatype Container = Container(
    id: nat, service: string, ns: string, image: string, build: string, env: string, running: bool)

  /** Docker's containers by name. */
  type Host = map<string, Container>

  datatype Input = Input(service: string, ns: string, image: string, build: string, env: string, instances: nat)

  function Effective(ns: string): (r: string)
    ensures r != ""
  {
    if ns == "" then DEFAULT_NAMESPACE else ns
  }

  // ------------------------------------------------------------------------ names

  function Digit(d: nat): char
    requires d < 10
  {
    '0' + d as char
  }

  function Decimal(n: nat): (s: string)
    ensures |s| > 0 && '-' !in s
  {
    if n < 10 then [Digit(n)] else Decimal(n / 10) + [Digit(n % 10)]
  }

  /** shortServiceName. */
  function Short(service: string): string {
    if |service| > 8 then service[..8] else service
  }

  function Name(input: Input, i: nat): string {
    Effective(input.ns) + "-" + Short(input.service) + "-" + Decimal(i)
  }

  lemma {:induction false} DecimalInjective(m: nat, n: nat)
    requires Decimal(m) == Decimal(n)
    ensures m == n
    decreases m
  {
    var s := Decimal(m);
    assert (|s| == 1 <==> m < 10) && (|s| == 1 <==> n < 10);
    if m < 10 {
      assert s[0] == Digit(m) && s[0] == Digit(n);
    } else {
      assert s[..|s| - 1] == Decimal(m / 10) && s[..|s| - 1] == Decimal(n / 10);
      assert s[|s| - 1] == Digit(m % 10) && s[|s| - 1] == Digit(n % 10);
      DecimalInjective(m / 10, n / 10);
    }
  }

  /** The digits as numbers, most significant first. */
  function DigitValues(s: string): seq<nat>
    requires forall i | 0 <= i < |s| :: '0' <= s[i] <= '9'
  {
    seq(|s|, i requires 0 <= i < |s| => s[i] as int - '0' as int)
  }

  /** The decimal text of a number has its value. */
  lemma {:induction false} DecimalReadBack(n: nat)
    ensures forall i | 0 <= i < |Decimal(n)| :: '0' <= Decimal(n)[i] <= '9'
    ensures Value(DigitValues(Decimal(n)), 10) == n
  {
    if n < 10 {
      assert DigitValues(Decimal(n)) == [n];
      assert [n][..0] == [];
    } else {
      DecimalReadBack(n / 10);
      var front := DigitValues(Decimal(n / 10));
      assert DigitValues(Decimal(n)) == front + [n % 10];
      ValueAppend(front, n % 10, 10);
    }
  }

  /** A container is named by its namespace, up to eight characters of its service id, and its number. */
  lemma NameMeans(input: Input, i: nat)
    ensures exists short ::
              && short <= input.service && |short| == (if |input.service| < 8 then |input.service| else 8)
              && Name(input, i) == (if input.ns == "" then "kaiad" else input.ns) + "-" + short + "-" + Decimal(i)
  {
    assert Short(input.service) <= input.service;
  }

  lemma {:induction false} LastDash(a: string, b: string, x: string, y: string)
    requires '-' !in x && '-' !in y && a + "-" + x == b + "-" + y
    ensures a == b && x == y
  {
    var s := a + "-" + x;
    assert s[|a|] == '-' && s[|b|] == '-';
    assert forall i | |a| < i < |s| :: s[i] == x[i - |a| - 1];
    assert forall i | |b| < i < |s| :: s[i] == y[i - |b| - 1];
    assert |a| == |b|;
    assert s[..|a|] == a && s[..|b|] == b;
    assert s[|a| + 1..] == x && s[|b| + 1..] == y;
  }

  /** When the eight-character prefixes hold no dash, names clash only within a namespace and a prefix. */
  lemma NamesClashIff(p: Input, q: Input, i: nat, j: nat)
    requires '-' !in Short(p.service) && '-' !in Short(q.service)
    ensures Name(p, i) == Name(q, j)
            <==> Effective(p.ns) == Effective(q.ns) && Short(p.service) == Short(q.service) && i == j
  {
    if Name(p, i) == Name(q, j) {
      LastDash(Effective(p.ns) + "-" + Short(p.service), Effective(q.ns) + "-" + Short(q.service), Decimal(i), Decimal(j));
      LastDash(Effective(p.ns), Effective(q.ns), Short(p.service), Short(q.service));
      DecimalInjective(i, j);
    }
  }

  lemma NamesDistinct(input: Input, i: nat, j: nat)
    requires Name(input, i) == Name(input, j)
    ensures i == j
  {
    var prefix := Effective(input.ns) + "-" + Short(input.service);
    LastDash(prefix, prefix, Decimal(i), Decimal(j));
    DecimalInjective(i, j);
  }

  // --------------------------------------------------------------- the two commands

  /** What a redeploy removes first: the service's containers of that namespace. */
  predicate IsOwn(c: Container, input: Input) {
    c.service == input.service && c.ns == Effective(input.ns)
  }

  /** What a teardown removes: with the default namespace, all of the service's containers. */
  predicate IsDoomed(c: Container, service: string, ns: string) {
    c.service == service && (Effective(ns) == DEFAULT_NAMESPACE || c.ns == "" || c.ns == Effective(ns))
  }

  function New(input: Input, id: nat): Container {
    Container(id, input.service, Effective(input.ns), input.image, input.build, input.env, true)
  }

  /** The replicas 0 to k-1, each replacing whatever had its name. */
  function Created(host: Host, next: nat, input: Input, k: nat): Host {
    if k == 0 then host else Created(host, next, input, k - 1)[Name(input, k - 1) := New(input, next + k - 1)]
  }

  function WithoutOwn(host: Host, input: Input): Host {
    map n | n in host && !IsOwn(host[n], input) :: host[n]
  }

  function Redeployed(host: Host, next: nat, input: Input): Host {
    Created(WithoutOwn(host, input), next, input, input.instances)
  }

  function TornDown(host: Host, service: string, ns: string): Host {
    map n | n in host && !IsDoomed(host[n], service, ns) :: host[n]
  }

  /** `n` is the name of one of the first k replicas. */
  predicate Planned(input: Input, k: nat, n: string) {
    exists i | 0 <= i < k :: Name(input, i) == n
  }

  lemma {:induction false} CreatedLookup(host: Host, next: nat, input: Input, k: nat, n: string)
    ensures n in Created(host, next, input, k) <==> n in host || Planned(input, k, n)
    ensures !Planned(input, k, n) && n in host ==> Created(host, next, input, k)[n] == host[n]
    ensures forall i | 0 <= i < k && Name(input, i) == n :: Created(host, next, input, k)[n] == New(input, next + i)
  {
    if k > 0 {
      CreatedLookup(host, next, input, k - 1, n);
      if Name(input, k - 1) == n {
        forall i | 0 <= i < k && Name(input, i) == n
          ensures i == k - 1
        {
          NamesDistinct(input, i, k - 1);
        }
      } else {
        assert Planned(input, k, n) <==> Planned(input, k - 1, n);
      }
    }
  }

  function Replicas(input: Input, k: nat): set<string> {
    set i | 0 <= i < k :: Name(input, i)
  }

  lemma NotYetNamed(input: Input, k: nat)
    ensures Name(input, k) !in Replicas(input, k)
    ensures Replicas(input, k + 1) == Replicas(input, k) + {Name(input, k)}
  {
    if Name(input, k) in Replicas(input, k) {
      var i :| 0 <= i < k && Name(input, i) == Name(input, k);
      NamesDistinct(input, i, k);
      assert false;
    }
  }

  lemma {:induction false} ReplicaCount(input: Input, k: nat)
    ensures |Replicas(input, k)| == k
  {
    if k > 0 {
      ReplicaCount(input, k - 1);
      NotYetNamed(input, k - 1);
    }
  }

  /** The container carries the labels of a service in a namespace, the default one being "kaiad". */
  predicate Labelled(c: Container, service: string, ns: string) {
    c.service == service && c.ns == if ns == "" then "kaiad" else ns
  }

  /** One of these replicas by its labels, of this image and build, and running. */
  predicate IsReplica(c: Container, input: Input) {
    && Labelled(c, input.service, input.ns)
    && c.image == input.image && c.build == input.build && c.env == input.env
    && c.running
  }

  /**
   A redeploy leaves exactly `instances` containers of the service in its namespace, each
   running the wanted image under its labels, and every other container that has none of
   their names as it was.
   */
  lemma RedeployResult(host: Host, next: nat, input: Input)
    ensures var after := Redeployed(host, next, input);
            && (set n | n in after && Labelled(after[n], input.service, input.ns)) == Replicas(input, input.instances)
            && |set n | n in after && Labelled(after[n], input.service, input.ns)| == input.instances
            && (forall n | n in after && Labelled(after[n], input.service, input.ns) ::
                  IsReplica(after[n], input) && after[n].id >= next)
            && (forall n | n in host && !Labelled(host[n], input.service, input.ns) && !Planned(input, input.instances, n) ::
                  n in after && after[n] == host[n])
            && (forall n | n in after && !Labelled(after[n], input.service, input.ns) :: n in host && after[n] == host[n])
  {
    var after := Redeployed(host, next, input);
    var kept := WithoutOwn(host, input);
    forall n
      ensures n in after <==> n in kept || Planned(input, input.instances, n)
      ensures !Planned(input, input.instances, n) && n in kept ==> after[n] == kept[n]
      ensures forall i | 0 <= i < input.instances && Name(input, i) == n :: after[n] == New(input, next + i)
    {
      CreatedLookup(kept, next, input, input.instances, n);
    }
    ReplicaCount(input, input.instances);
    assert (set n | n in after && Labelled(after[n], input.service, input.ns)) == Replicas(input, input.instances);
  }

  /**
   A teardown removes a service's containers that carry the namespace or none, and with the
   default namespace, or none given, all of them; nothing else goes.
   */
  lemma TeardownResult(host: Host, service: string, ns: string)
    ensures var after := TornDown(host, service, ns);
            && (forall n | n in after :: n in host && after[n] == host[n])
            && forall n | n in host ::
                 n !in after <==> && host[n].service == service
                                  && (ns == "" || ns == "kaiad" || host[n].ns == "" || host[n].ns == ns)
  {
  }

  /**
   A redeploy and a teardown of the same service commute exactly when nothing is deployed, or
   the torn-down namespace is neither the default nor the redeployed one.
   */
  lemma CommuteIff(host: Host, next: nat, input: Input, gone: string)
    ensures Redeployed(TornDown(host, input.service, gone), next, input)
            == TornDown(Redeployed(host, next, input), input.service, gone)
            <==> input.instances == 0
                 || (Effective(gone) != DEFAULT_NAMESPACE && Effective(gone) != Effective(input.ns))
  {
    var first := Redeployed(TornDown(host, input.service, gone), next, input);
    var last := TornDown(Redeployed(host, next, input), input.service, gone);
    forall n
      ensures n in first <==> n in WithoutOwn(TornDown(host, input.service, gone), input) || Planned(input, input.instances, n)
    {
      CreatedLookup(WithoutOwn(TornDown(host, input.service, gone), input), next, input, input.instances, n);
    }
    if input.instances == 0 {
      assert first == last;
    } else if Effective(gone) != DEFAULT_NAMESPACE && Effective(gone) != Effective(input.ns) {
      forall n
        ensures n in first <==> n in last
        ensures n in first ==> first[n] == last[n]
      {
        CreatedLookup(WithoutOwn(TornDown(host, input.service, gone), input), next, input, input.instances, n);
        CreatedLookup(WithoutOwn(host, input), next, input, input.instances, n);
      }
      assert first == last;
    } else {
      var n := Name(input, 0);
      assert Planned(input, input.instances, n);
      CreatedLookup(WithoutOwn(host, input), next, input, input.instances, n);
      assert n in first && n !in last;
    }
  }

  // ------------------------------------------------------------- call by call

  datatype Teardown = TStart | TRemoving(todo: set<nat>)

  datatype Redeploy = RStart | RBusy(todo: set<nat>, k: nat, freed: bool)

  datatype World = World(host: Host, next: nat, t: Teardown, r: Redeploy)

  datatype Event = TList | TRemove(id: nat) | RList | RRemove(id: nat) | RFree | RCreate

  function RemoveId(host: Host, id: nat): Host {
    map n | n in host && host[n].id != id :: host[n]
  }

  /** One docker call of either goroutine; an event that is not due changes nothing. */
  function Step(w: World, e: Event, input: Input, gone: string): World {
    match e
    case TList =>
      if w.t.TStart?
      then w.(t := TRemoving(set n | n in w.host && IsDoomed(w.host[n], input.service, gone) :: w.host[n].id))
      else w
    case TRemove(id) =>
      if w.t.TRemoving? && id in w.t.todo then w.(host := RemoveId(w.host, id), t := TRemoving(w.t.todo - {id})) else w
    case RList =>
      if w.r.RStart?
      then w.(r := RBusy(set n | n in w.host && IsOwn(w.host[n], input) :: w.host[n].id, 0, false))
      else w
    case RRemove(id) =>
      if w.r.RBusy? && id in w.r.todo then w.(host := RemoveId(w.host, id), r := w.r.(todo := w.r.todo - {id})) else w
    case RFree =>
      if w.r.RBusy? && w.r.todo == {} && !w.r.freed && w.r.k < input.instances
      then w.(host := w.host - {Name(input, w.r.k)}, r := w.r.(freed := true))
      else w
    case RCreate =>
      if w.r.RBusy? && w.r.freed
      then w.(host := w.host[Name(input, w.r.k) := New(input, w.next)], next := w.next + 1,
              r := w.r.(k := w.r.k + 1, freed := false))
      else w
  }

  function Run(w: World, es: seq<Event>, input: Input, gone: string): World
    decreases |es|
  {
    if es == [] then w else Run(Step(w, es[0], input, gone), es[1..], input, gone)
  }

  predicate BothDone(w: World, input: Input) {
    w.t == TRemoving({}) && w.r == RBusy({}, input.instances, false)
  }

  /** Docker gives every container its own id, and new ones later ids. */
  ghost predicate OwnIds(host: Host, next: nat) {
    && (forall n | n in host :: host[n].id < next)
    && (forall m, n | m in host && n in host && host[m].id == host[n].id :: m == n)
  }

  function Replaced(w: World): nat {
    if w.r.RStart? then 0 else w.r.k
  }

  /** The name is among those the redeploy has freed or created by now. */
  predicate Touched(w: World, input: Input, n: string) {
    Planned(input, Replaced(w), n) || (w.r.RBusy? && w.r.freed && n == Name(input, w.r.k))
  }

  /** An original container that one of the two has listed and removed by now. */
  predicate Taken(w: World, c: Container, input: Input, gone: string) {
    || (IsDoomed(c, input.service, gone) && w.t.TRemoving? && c.id !in w.t.todo)
    || (IsOwn(c, input) && w.r.RBusy? && c.id !in w.r.todo)
  }

  /** What the host holds under each name follows from how far the two have come. */
  ghost predicate NameInv(host0: Host, next0: nat, w: World, input: Input, gone: string, n: string) {
    if Planned(input, Replaced(w), n) then
      n in w.host && forall i | 0 <= i < Replaced(w) && Name(input, i) == n :: w.host[n] == New(input, next0 + i)
    else if Touched(w, input, n) || n !in host0 || Taken(w, host0[n], input, gone) then n !in w.host
    else n in w.host && w.host[n] == host0[n]
  }

  /** The ids are those of original containers that the teardown, or the redeploy, is to remove. */
  ghost predicate ToRemove(host0: Host, next0: nat, ids: set<nat>, input: Input, gone: string, teardown: bool) {
    && (forall id | id in ids :: id < next0)
    && forall n | n in host0 && host0[n].id in ids ::
         if teardown then IsDoomed(host0[n], input.service, gone) else IsOwn(host0[n], input)
  }

  ghost predicate Inv(host0: Host, next0: nat, w: World, input: Input, gone: string) {
    && w.next == next0 + Replaced(w) && Replaced(w) <= input.instances
    && (w.r.RBusy? && w.r.freed ==> w.r.k < input.instances)
    && (w.r.RBusy? && (w.r.freed || w.r.k > 0) ==> w.r.todo == {})
    && (w.t.TRemoving? ==> ToRemove(host0, next0, w.t.todo, input, gone, true))
    && (w.r.RBusy? ==> ToRemove(host0, next0, w.r.todo, input, gone, false))
    && forall n {:trigger NameInv(host0, next0, w, input, gone, n)} :: NameInv(host0, next0, w, input, gone, n)
  }

  /** The torn-down namespace is neither the default nor the redeployed one. */
  predicate Apart(input: Input, gone: string) {
    Effective(gone) != DEFAULT_NAMESPACE && Effective(gone) != Effective(input.ns)
  }

  /** A container on the host is an original one under its own name, or a new replica. */
  lemma OriginalOrNew(host0: Host, next0: nat, w: World, input: Input, gone: string, n: string)
    requires Inv(host0, next0, w, input, gone) && n in w.host
    ensures || (n in host0 && w.host[n] == host0[n] && !Touched(w, input, n) && !Taken(w, host0[n], input, gone))
            || (exists i | 0 <= i < Replaced(w) :: Name(input, i) == n && w.host[n] == New(input, next0 + i))
  {
    assert NameInv(host0, next0, w, input, gone, n);
    if Planned(input, Replaced(w), n) {
      var i :| 0 <= i < Replaced(w) && Name(input, i) == n;
    }
  }

  lemma ListsOriginals(host0: Host, next0: nat, w: World, e: Event, input: Input, gone: string)
    requires OwnIds(host0, next0) && Apart(input, gone) && Inv(host0, next0, w, input, gone)
    requires e.TList? || e.RList?
    ensures var after := Step(w, e, input, gone);
            && (after.t.TRemoving? ==> ToRemove(host0, next0, after.t.todo, input, gone, true))
            && (after.r.RBusy? ==> ToRemove(host0, next0, after.r.todo, input, gone, false))
  {
    forall n | n in w.host
      ensures || (n in host0 && w.host[n] == host0[n])
              || (w.host[n].id >= next0 && !IsDoomed(w.host[n], input.service, gone) && !w.r.RStart?)
    {
      OriginalOrNew(host0, next0, w, input, gone, n);
    }
  }

  lemma ListKeepsName(host0: Host, next0: nat, w: World, e: Event, input: Input, gone: string, n: string)
    requires OwnIds(host0, next0) && Apart(input, gone) && Inv(host0, next0, w, input, gone)
    requires e.TList? || e.RList?
    ensures NameInv(host0, next0, Step(w, e, input, gone), input, gone, n)
  {
    assert NameInv(host0, next0, w, input, gone, n);
    var after := Step(w, e, input, gone);
    assert Planned(input, Replaced(after), n) == Planned(input, Replaced(w), n);
    assert Touched(after, input, n) == Touched(w, input, n);
    if n in host0 && !Touched(w, input, n) {
      forall m | m in w.host && w.host[m].id == host0[n].id
        ensures m == n
      {
        OriginalOrNew(host0, next0, w, input, gone, m);
      }
      assert Taken(after, host0[n], input, gone) == Taken(w, host0[n], input, gone);
    }
  }

  lemma RemoveKeepsName(host0: Host, next0: nat, w: World, e: Event, input: Input, gone: string, n: string)
    requires OwnIds(host0, next0) && Inv(host0, next0, w, input, gone)
    requires e.TRemove? || e.RRemove?
    ensures NameInv(host0, next0, Step(w, e, input, gone), input, gone, n)
  {
    assert NameInv(host0, next0, w, input, gone, n);
    var after := Step(w, e, input, gone);
    assert Planned(input, Replaced(after), n) == Planned(input, Replaced(w), n);
    assert Touched(after, input, n) == Touched(w, input, n);
  }

  lemma ReplaceKeepsName(host0: Host, next0: nat, w: World, e: Event, input: Input, gone: string, n: string)
    requires Inv(host0, next0, w, input, gone) && (e.RFree? || e.RCreate?)
    ensures NameInv(host0, next0, Step(w, e, input, gone), input, gone, n)
  {
    assert NameInv(host0, next0, w, input, gone, n);
    var after := Step(w, e, input, gone);
    if w.r.RBusy? {
      var k := w.r.k;
      forall i | 0 <= i < k + 1 && Name(input, i) == Name(input, k)
        ensures i == k
      {
        NamesDistinct(input, i, k);
      }
      assert Planned(input, k + 1, n) <==> Planned(input, k, n) || n == Name(input, k);
    }
  }

  lemma StepKeepsInv(host0: Host, next0: nat, w: World, e: Event, input: Input, gone: string)
    requires OwnIds(host0, next0) && Apart(input, gone) && Inv(host0, next0, w, input, gone)
    ensures Inv(host0, next0, Step(w, e, input, gone), input, gone)
  {
    forall n
      ensures NameInv(host0, next0, Step(w, e, input, gone), input, gone, n)
    {
      if e.TList? || e.RList? {
        ListKeepsName(host0, next0, w, e, input, gone, n);
      } else if e.TRemove? || e.RRemove? {
        RemoveKeepsName(host0, next0, w, e, input, gone, n);
      } else {
        ReplaceKeepsName(host0, next0, w, e, input, gone, n);
      }
    }
    if e.TList? || e.RList? {
      ListsOriginals(host0, next0, w, e, input, gone);
    }
  }

  lemma {:induction false} RunKeepsInv(host0: Host, next0: nat, w: World, es: seq<Event>, input: Input, gone: string)
    requires OwnIds(host0, next0) && Apart(input, gone) && Inv(host0, next0, w, input, gone)
    ensures Inv(host0, next0, Run(w, es, input, gone), input, gone)
    decreases |es|
  {
    if es != [] {
      StepKeepsInv(host0, next0, w, es[0], input, gone);
      RunKeepsInv(host0, next0, Step(w, es[0], input, gone), es[1..], input, gone);
    }
  }

  /**
   When the torn-down namespace is neither the default nor the redeployed one, every way of
   interleaving the two goroutines' docker calls ends with the containers of running the
   teardown first and the redeploy after it.
   */
  lemma InterleavingsAgree(host: Host, next: nat, es: seq<Event>, input: Input, gone: string)
    requires OwnIds(host, next) && Apart(input, gone)
    requires BothDone(Run(World(host, next, TStart, RStart), es, input, gone), input)
    ensures Run(World(host, next, TStart, RStart), es, input, gone).host
            == Redeployed(TornDown(host, input.service, gone), next, input)
  {
    var start := World(host, next, TStart, RStart);
    forall n
      ensures NameInv(host, next, start, input, gone, n)
    {
    }
    RunKeepsInv(host, next, start, es, input, gone);
    var w := Run(start, es, input, gone);
    var kept := WithoutOwn(TornDown(host, input.service, gone), input);
    var final := Redeployed(TornDown(host, input.service, gone), next, input);
    forall n
      ensures n in w.host <==> n in final
      ensures n in w.host ==> w.host[n] == final[n]
    {
      assert NameInv(host, next, w, input, gone, n);
      CreatedLookup(kept, next, input, input.instances, n);
    }
  }

  /**
   How the redeploy keeps its books: it frees a name when nothing is left to remove and a replica is still
   to come.
   */
  predicate Shape(w: World, input: Input) {
    w.r.RBusy? ==> w.r.k <= input.instances && (w.r.freed ==> w.r.k < input.instances && w.r.todo == {})
  }

  lemma {:induction false} RunKeepsShape(w: World, es: seq<Event>, input: Input, gone: string)
    requires Shape(w, input)
    ensures Shape(Run(w, es, input, gone), input)
    decreases |es|
  {
    if es != [] {
      RunKeepsShape(Step(w, es[0], input, gone), es[1..], input, gone);
    }
  }

  function TeardownLeft(t: Teardown): nat {
    if t.TStart? then 1 else 0
  }

  function RedeployLeft(r: Redeploy): nat {
    if r.RStart? then 1 else 0
  }

  /** Whatever was called before, the two goroutines can be run to their ends. */
  lemma {:induction false} Finishes(w: World, input: Input, gone: string) returns (es: seq<Event>)
    requires Shape(w, input)
    ensures BothDone(Run(w, es, input, gone), input)
    decreases TeardownLeft(w.t), if w.t.TStart? then 0 else |w.t.todo|, RedeployLeft(w.r),
              if w.r.RStart? then 0 else |w.r.todo|,
              if w.r.RStart? then 0 else 2 * (input.instances - w.r.k) + if w.r.freed then 0 else 1
  {
    if BothDone(w, input) {
      return [];
    }
    var e := TList;
    if w.t.TRemoving? && w.t.todo != {} {
      var id :| id in w.t.todo;
      e := TRemove(id);
    } else if w.t.TRemoving? && w.r.RStart? {
      e := RList;
    } else if w.t.TRemoving? && w.r.todo != {} {
      var id :| id in w.r.todo;
      e := RRemove(id);
    } else if w.t.TRemoving? {
      e := if w.r.freed then RCreate else RFree;
    }
    var rest := Finishes(Step(w, e, input, gone), input, gone);
    es := [e] + rest;
    assert es[1..] == rest;
  }

  lemma {:induction false} RunSplits(w: World, es: seq<Event>, more: seq<Event>, input: Input, gone: string)
    ensures Run(w, es + more, input, gone) == Run(Run(w, es, input, gone), more, input, gone)
    decreases |es|
  {
    if es == [] {
      assert es + more == more;
    } else {
      assert (es + more)[1..] == es[1..] + more;
      RunSplits(Step(w, es[0], input, gone), es[1..], more, input, gone);
    }
  }

  /** Every interleaving of docker calls can go on until both commands are done. */
  lemma InterleavingsFinish(host: Host, next: nat, es: seq<Event>, input: Input, gone: string)
    ensures exists more :: BothDone(Run(World(host, next, TStart, RStart), es + more, input, gone), input)
  {
    var start := World(host, next, TStart, RStart);
    RunKeepsShape(start, es, input, gone);
    var more := Finishes(Run(start, es, input, gone), input, gone);
    RunSplits(start, es, more, input, gone);
  }

  // -------------------------------------------------------------------- the agent

  /** Which docker calls fail: the removals by container id, the creations and starts by replica. */
  datatype Faults = Faults(pull: bool, list: bool, removes: set<nat>, creates: set<nat>, starts: set<nat>)

  predicate FaultFree(host: Host, input: Input, f: Faults) {
    && !f.pull && !f.list
    && (forall n | n in host && IsOwn(host[n], input) :: host[n].id !in f.removes)
    && forall i | 0 <= i < input.instances :: i !in f.creates && i !in f.starts
  }

  class DockerHost {
    var containers: Host
    var next: nat

    constructor (host: Host, next: nat)
      ensures containers == host && this.next == next
    {
      containers, this.next := host, next;
    }

    /** DELETE by id or name; a container that is not there counts as removed. */
    method RemoveContainer(name: string, fails: bool) returns (ok: bool)
      modifies this`containers
      ensures ok == !fails
      ensures containers == if fails then old(containers) else old(containers) - {name}
    {
      ok := !fails;
      if !fails {
        containers := containers - {name};
      }
    }

    method StartReplica(input: Input, i: nat, f: Faults) returns (ok: bool)
      modifies this
      ensures ok <==> i !in f.creates && i !in f.starts
      ensures ok ==> containers == old(containers)[Name(input, i) := New(input, old(next))] && next == old(next) + 1
      ensures forall n | n in old(containers) && n != Name(input, i) :: n in containers && containers[n] == old(containers)[n]
    {
      var name := Name(input, i);
      var _ := RemoveContainer(name, false);
      if i in f.creates {
        return false;
      }
      containers := containers[name := New(input, next).(running := false)];
      next := next + 1;
      if i in f.starts {
        return false;
      }
      containers := containers[name := containers[name].(running := true)];
      ok := true;
    }

    method RemoveOwn(input: Input, f: Faults) returns (ok: bool)
      modifies this`containers
      ensures ok <==> forall n | n in old(containers) && IsOwn(old(containers)[n], input) :: old(containers)[n].id !in f.removes
      ensures ok ==> containers == WithoutOwn(old(containers), input)
      ensures forall n | n in old(containers) && !IsOwn(old(containers)[n], input) ::
                n in containers && containers[n] == old(containers)[n]
    {
      ghost var host0 := containers;
      var toRemove := set n | n in containers && IsOwn(containers[n], input);
      while toRemove != {}
        invariant forall n | n in containers :: n in host0 && containers[n] == host0[n]
        invariant forall n | n in host0 && !IsOwn(host0[n], input) :: n in containers
        invariant toRemove == set n | n in containers && IsOwn(containers[n], input)
        invariant forall n | n in host0 && IsOwn(host0[n], input) && n !in containers :: host0[n].id !in f.removes
        decreases |toRemove|
      {
        var n :| n in toRemove;
        ok := RemoveContainer(n, containers[n].id in f.removes);
        if !ok {
          return;
        }
        toRemove := toRemove - {n};
      }
      assert forall n | n in containers :: IsOwn(containers[n], input) ==> n in toRemove;
      ok := true;
    }

    method StartReplicas(input: Input, f: Faults) returns (ok: bool)
      modifies this
      ensures ok <==> forall i | 0 <= i < input.instances :: i !in f.creates && i !in f.starts
      ensures ok ==> containers == Created(old(containers), old(next), input, input.instances)
      ensures forall n | n in old(containers) && !Planned(input, input.instances, n) ::
                n in containers && containers[n] == old(containers)[n]
    {
      ghost var host0, next0 := containers, next;
      for i := 0 to input.instances
        invariant containers == Created(host0, next0, input, i) && next == next0 + i
        invariant forall j | 0 <= j < i :: j !in f.creates && j !in f.starts
        invariant forall n | n in host0 && !Planned(input, input.instances, n) :: n in containers && containers[n] == host0[n]
      {
        ok := StartReplica(input, i, f);
        if !ok {
          assert Planned(input, input.instances, Name(input, i));
          return;
        }
        assert Planned(input, input.instances, Name(input, i));
      }
      ok := true;
    }

    /**
     It stops at the first call that fails; whatever happens, containers that are not its own
     and have none of its names stay as they are.
     */
    method RedeployDocker(input: Input, f: Faults) returns (success: bool)
      modifies this
      ensures success <==> FaultFree(old(containers), input, f)
      ensures success ==> containers == Redeployed(old(containers), old(next), input)
      ensures forall n | n in old(containers) && !IsOwn(old(containers)[n], input) && !Planned(input, input.instances, n) ::
                n in containers && containers[n] == old(containers)[n]
    {
      if f.pull || f.list {
        return false;
      }
      success := RemoveOwn(input, f);
      if success {
        success := StartReplicas(input, f);
      }
    }

    /** Removals that fail are logged and skipped. */
    method TeardownDocker(service: string, ns: string, bad: set<nat>) returns (removed: nat)
      modifies this`containers
      ensures containers == map n | n in old(containers)
                                    && (IsDoomed(old(containers)[n], service, ns) ==> old(containers)[n].id in bad)
                              :: old(containers)[n]
      ensures bad == {} ==> containers == TornDown(old(containers), service, ns)
      ensures removed == |old(containers)| - |containers|
    {
      ghost var host0 := containers;
      var listed := set n | n in containers && IsDoomed(containers[n], service, ns);
      removed := 0;
      while listed != {}
        invariant forall n | n in containers :: n in host0 && containers[n] == host0[n]
        invariant forall n | n in listed :: n in containers && IsDoomed(containers[n], service, ns)
        invariant forall n | n in host0 && n !in listed ::
                    n in containers <==> (IsDoomed(host0[n], service, ns) ==> host0[n].id in bad)
        invariant removed == |host0| - |containers|
        decreases |listed|
      {
        var n :| n in listed;
        OneLess(containers, n);
        var ok := RemoveContainer(n, containers[n].id in bad);
        if ok {
          removed := removed + 1;
        }
        listed := listed - {n};
      }
    }
  }

  lemma OneLess(host: Host, n: string)
    requires n in host
    ensures |host - {n}| == |host| - 1
  {
    assert host == (host - {n})[n := host[n]];
  }
}
