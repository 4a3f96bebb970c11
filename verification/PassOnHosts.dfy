/**
 What a reconcile pass does to containers: the commands it sends an agent are executed on the
 agent's docker host in any order, since each runs in its own goroutine. The rows may then
 match, and the next pass be quiet, while nothing runs.
 */
module PassOnHosts {
  import opened Wrappers
  import R = Reconcile
  import D = DockerRedeploy

  datatype Host = Host(containers: D.Host, next: nat)

  /** The redeploy of a pair as the pass sends it. */
  function RedeployFor(w: R.World, a: string, s: string): R.Command
    requires R.Live(w, a, s)
  {
    R.Redeploy(a, s, w.builds[s].imageRef, w.builds[s].id, w.agents[a].env, R.Desired(w, a, s).value)
  }

  /** What the agent makes of it. */
  function InputOf(c: R.Command): D.Input
    requires c.Redeploy?
  {
    D.Input(c.service, c.config.namespace, c.imageRef, D.Decimal(c.buildId), c.env, c.config.instances)
  }

  function InputFor(w: R.World, a: string, s: string): D.Input
    requires R.Live(w, a, s)
  {
    InputOf(RedeployFor(w, a, s))
  }

  function Exec(h: Host, c: R.Command): Host {
    match c
    case Redeploy(_, _, _, _, _, _) =>
      Host(D.Redeployed(h.containers, h.next, InputOf(c)), h.next + InputOf(c).instances)
    case Teardown(_, s, _, ns) => h.(containers := D.TornDown(h.containers, s, ns))
  }

  function ExecAll(h: Host, cs: seq<R.Command>): Host {
    if cs == [] then h else Exec(ExecAll(h, cs[..|cs| - 1]), cs[|cs| - 1])
  }

  lemma ExecLast(h: Host, front: seq<R.Command>, c: R.Command)
    ensures ExecAll(h, front + [c]) == Exec(ExecAll(h, front), c)
  {
    assert (front + [c])[..|front|] == front;
  }

  function Own(host: D.Host, service: string, ns: string): set<string> {
    set n | n in host && host[n].service == service && host[n].ns == if ns == "" then "kaiad" else ns
  }

  /** The service's containers in its namespace are the wanted replicas by name, label and image, and run. */
  predicate Wanted(host: D.Host, input: D.Input) {
    && Own(host, input.service, input.ns) == D.Replicas(input, input.instances)
    && forall n | n in Own(host, input.service, input.ns) :: D.IsReplica(host[n], input)
  }

  /**
   The pair's containers, those with the labels of the service and its wanted namespace, are as
   many as its pipeline wants on the agent's environment, and each runs the latest build's image
   under that build's number and that environment.
   */
  predicate Deploys(w: R.World, a: string, s: string, host: D.Host)
    requires R.Live(w, a, s)
  {
    var wanted := R.Desired(w, a, s).value;
    var own := Own(host, s, wanted.namespace);
    && |own| == wanted.instances
    && forall n | n in own ::
         && host[n].image == w.builds[s].imageRef && host[n].build == D.Decimal(w.builds[s].id)
         && host[n].env == w.agents[a].env && host[n].running
  }

  lemma WantedDeploys(w: R.World, a: string, s: string, host: D.Host)
    requires R.Live(w, a, s) && Wanted(host, InputFor(w, a, s))
    ensures Deploys(w, a, s, host)
  {
    var input := InputFor(w, a, s);
    D.ReplicaCount(input, input.instances);
  }

  // ------------------------------------------------------------- command by command

  lemma RedeployWants(host: D.Host, next: nat, input: D.Input)
    ensures Wanted(D.Redeployed(host, next, input), input)
  {
    D.RedeployResult(host, next, input);
    var after := D.Redeployed(host, next, input);
    assert Own(after, input.service, input.ns) == set n | n in after && D.Labelled(after[n], input.service, input.ns);
  }

  predicate ShortsApart(s: string, r: string) {
    '-' !in D.Short(s) && '-' !in D.Short(r) && D.Short(s) != D.Short(r)
  }

  lemma OtherRedeployKeeps(host: D.Host, next: nat, input: D.Input, other: D.Input)
    requires Wanted(host, input) && other.service != input.service && ShortsApart(input.service, other.service)
    ensures Wanted(D.Redeployed(host, next, other), input)
  {
    var after := D.Redeployed(host, next, other);
    D.RedeployResult(host, next, other);
    forall n | n in Own(host, input.service, input.ns)
      ensures n in after && after[n] == host[n]
    {
      var i :| 0 <= i < input.instances && D.Name(input, i) == n;
      if D.Planned(other, other.instances, n) {
        var j :| 0 <= j < other.instances && D.Name(other, j) == n;
        D.NamesClashIff(input, other, i, j);
      }
    }
    assert Own(after, input.service, input.ns) == Own(host, input.service, input.ns);
  }

  lemma TeardownKeeps(host: D.Host, input: D.Input, s: string, gone: string)
    requires Wanted(host, input) && (s != input.service || D.Apart(input, gone) || input.instances == 0)
    ensures Wanted(D.TornDown(host, s, gone), input)
  {
    D.TeardownResult(host, s, gone);
    assert Own(D.TornDown(host, s, gone), input.service, input.ns) == Own(host, input.service, input.ns);
  }

  /** A teardown that dooms every namespace of the service leaves none of its containers. */
  lemma TeardownEmpties(w: R.World, a: string, s: string, host: D.Host)
    requires R.Live(w, a, s) && R.Desired(w, a, s).value.instances > 0
    ensures !Deploys(w, a, s, D.TornDown(host, s, "kaiad"))
  {
    D.TeardownResult(host, s, "kaiad");
    assert Own(D.TornDown(host, s, "kaiad"), s, R.Desired(w, a, s).value.namespace) == {};
  }

  // ------------------------------------------------------------ what a pass sends

  ghost predicate Lists(w: R.World, ts: seq<R.Target>) {
    forall t :: t in ts <==> R.IsTarget(w, t)
  }

  function SentTo(a: string, cs: seq<R.Command>): seq<R.Command> {
    if cs == [] then []
    else SentTo(a, cs[..|cs| - 1]) + if cs[|cs| - 1].agent == a then [cs[|cs| - 1]] else []
  }

  lemma {:induction false} SentToMeans(a: string, cs: seq<R.Command>, c: R.Command)
    ensures c in SentTo(a, cs) <==> c in cs && c.agent == a
  {
    if cs != [] {
      SentToMeans(a, cs[..|cs| - 1], c);
    }
  }

  lemma {:induction false} AllCommandsMeans(w: R.World, ts: seq<R.Target>, c: R.Command)
    ensures c in R.AllCommands(w, ts) <==> exists t :: t in ts && c in R.CommandsFor(w, t)
  {
    if ts != [] {
      var k := |ts| - 1;
      AllCommandsMeans(w, ts[..k], c);
      assert forall t :: t in ts <==> t in ts[..k] || t == ts[k];
    }
  }

  /** An order in which the agent may come to execute what the pass sent it. */
  ghost predicate OrderOf(w: R.World, ts: seq<R.Target>, a: string, cs: seq<R.Command>) {
    multiset(cs) == multiset(SentTo(a, R.AllCommands(w, ts)))
  }

  ghost predicate RunsInEveryOrder(w: R.World, ts: seq<R.Target>, h: Host, a: string, s: string)
    requires R.Live(w, a, s)
  {
    forall cs | OrderOf(w, ts, a, cs) :: Deploys(w, a, s, ExecAll(h, cs).containers)
  }

  /** No row that the pass pops for the pair reports the default namespace. */
  ghost predicate NoDefaultPopped(w: R.World, a: string, s: string) {
    forall t | R.IsTarget(w, t) && t.agent == a && t.service == s && R.Pops(w, t) ::
      t.current.value.1.namespace != "kaiad"
  }

  /** Service ids are told apart by the eight characters that go into container names. */
  ghost predicate NamesApart(w: R.World, a: string) {
    forall s, r | R.Live(w, a, s) && R.Live(w, a, r) && s != r :: ShortsApart(s, r)
  }

  /** A command of the pass leaves another pair's, and a popped namespace's, containers alone. */
  ghost predicate Harmless(w: R.World, a: string, s: string, c: R.Command)
    requires R.Live(w, a, s)
  {
    match c
    case Redeploy(_, r, _, _, _, _) => R.Live(w, a, r) && c == RedeployFor(w, a, r)
    case Teardown(_, r, _, ns) => r != s || D.Apart(InputFor(w, a, s), ns) || R.Desired(w, a, s).value.instances == 0
  }

  lemma SentIsHarmless(w: R.World, ts: seq<R.Target>, a: string, s: string, c: R.Command)
    requires Lists(w, ts) && R.Live(w, a, s) && c in SentTo(a, R.AllCommands(w, ts))
    requires NoDefaultPopped(w, a, s) || R.Desired(w, a, s).value.instances == 0
    ensures Harmless(w, a, s, c)
  {
    SentToMeans(a, R.AllCommands(w, ts), c);
    AllCommandsMeans(w, ts, c);
    var t :| t in ts && c in R.CommandsFor(w, t);
    assert R.IsTarget(w, t);
  }

  lemma {:induction false} HarmlessKeepRunning(w: R.World, cs: seq<R.Command>, h: Host, a: string, s: string)
    requires R.Live(w, a, s) && NamesApart(w, a) && forall c | c in cs :: Harmless(w, a, s, c)
    requires RedeployFor(w, a, s) in cs || Wanted(h.containers, InputFor(w, a, s))
    ensures Wanted(ExecAll(h, cs).containers, InputFor(w, a, s))
  {
    if cs != [] {
      var front, c := cs[..|cs| - 1], cs[|cs| - 1];
      var input, before := InputFor(w, a, s), ExecAll(h, front);
      assert Harmless(w, a, s, c);
      if c == RedeployFor(w, a, s) {
        RedeployWants(before.containers, before.next, input);
      } else {
        HarmlessKeepRunning(w, front, h, a, s);
        match c
        case Redeploy(_, r, _, _, _, _) => OtherRedeployKeeps(before.containers, before.next, input, InputOf(c));
        case Teardown(_, r, _, ns) => TeardownKeeps(before.containers, input, r, ns);
      }
    }
  }

  lemma DispatchedIsSent(w: R.World, ts: seq<R.Target>, a: string, s: string)
    requires Lists(w, ts) && R.Live(w, a, s) && R.DispatchedPair(w, a, s)
    ensures RedeployFor(w, a, s) in SentTo(a, R.AllCommands(w, ts))
  {
    var t :| R.IsTarget(w, t) && t.agent == a && t.service == s && R.Dispatches(w, t);
    assert t in ts && RedeployFor(w, a, s) in R.CommandsFor(w, t);
    AllCommandsMeans(w, ts, RedeployFor(w, a, s));
    SentToMeans(a, R.AllCommands(w, ts), RedeployFor(w, a, s));
  }

  lemma MovedToEnd<T>(all: seq<T>, i: nat)
    requires i < |all|
    ensures multiset(all[..i] + all[i + 1..] + [all[i]]) == multiset(all)
  {
    assert all == all[..i] + ([all[i]] + all[i + 1..]);
  }

  /** Some order of the commands ends with a given one. */
  lemma OrderEndingWith(w: R.World, ts: seq<R.Target>, a: string, c: R.Command) returns (front: seq<R.Command>)
    requires c in SentTo(a, R.AllCommands(w, ts))
    ensures OrderOf(w, ts, a, front + [c])
  {
    var all := SentTo(a, R.AllCommands(w, ts));
    var i :| 0 <= i < |all| && all[i] == c;
    front := all[..i] + all[i + 1..];
    MovedToEnd(all, i);
  }

  lemma DefaultPoppedEmpties(w: R.World, ts: seq<R.Target>, h: Host, a: string, s: string)
    requires Lists(w, ts) && R.Live(w, a, s) && !NoDefaultPopped(w, a, s) && R.Desired(w, a, s).value.instances > 0
    ensures !RunsInEveryOrder(w, ts, h, a, s)
  {
    var t :| R.IsTarget(w, t) && t.agent == a && t.service == s && R.Pops(w, t)
             && t.current.value.1.namespace == "kaiad";
    var c := R.Teardown(a, s, t.current.value.0, "kaiad");
    assert t in ts && R.CommandsFor(w, t)[0] == c;
    AllCommandsMeans(w, ts, c);
    SentToMeans(a, R.AllCommands(w, ts), c);
    var front := OrderEndingWith(w, ts, a, c);
    ExecLast(h, front, c);
    TeardownEmpties(w, a, s, ExecAll(h, front).containers);
  }

  /**
   A pair has its replicas after every order of a pass's commands exactly when it wants none,
   or no row popped for it reports the default namespace.
   */
  lemma PairRunsIff(w: R.World, ts: seq<R.Target>, h: Host, a: string, s: string)
    requires Lists(w, ts) && R.Live(w, a, s) && NamesApart(w, a)
    requires R.DispatchedPair(w, a, s) || Wanted(h.containers, InputFor(w, a, s))
    ensures RunsInEveryOrder(w, ts, h, a, s) <==> NoDefaultPopped(w, a, s) || R.Desired(w, a, s).value.instances == 0
  {
    if NoDefaultPopped(w, a, s) || R.Desired(w, a, s).value.instances == 0 {
      forall cs | OrderOf(w, ts, a, cs)
        ensures Deploys(w, a, s, ExecAll(h, cs).containers)
      {
        var all := SentTo(a, R.AllCommands(w, ts));
        assert forall c :: c in cs <==> c in multiset(cs);
        assert forall c :: c in all <==> c in multiset(all);
        forall c | c in cs
          ensures Harmless(w, a, s, c)
        {
          SentIsHarmless(w, ts, a, s, c);
        }
        if R.DispatchedPair(w, a, s) {
          DispatchedIsSent(w, ts, a, s);
        }
        HarmlessKeepRunning(w, cs, h, a, s);
        WantedDeploys(w, a, s, ExecAll(h, cs).containers);
      }
    } else {
      DefaultPoppedEmpties(w, ts, h, a, s);
    }
  }

  // ------------------------------------------------------------- quiet, and running

  /** Each agent's host, where a pair that the pass leaves alone has its replicas already. */
  ghost predicate Deployed(w: R.World, hosts: map<string, Host>) {
    forall a, s | R.Live(w, a, s) ::
      && a in hosts && NamesApart(w, a)
      && (R.DispatchedPair(w, a, s) || Wanted(hosts[a].containers, InputFor(w, a, s)))
  }

  ghost predicate AllRun(w: R.World, ts: seq<R.Target>, hosts: map<string, Host>)
    requires Deployed(w, hosts)
  {
    forall a, s | R.Live(w, a, s) :: RunsInEveryOrder(w, ts, hosts[a], a, s)
  }

  ghost predicate PairSafe(w: R.World, a: string, s: string)
    requires R.Live(w, a, s)
  {
    NoDefaultPopped(w, a, s) || R.Desired(w, a, s).value.instances == 0
  }

  /**
   After a pass whose commands are all executed, in any order, and reported, a quiet next pass
   means that every live pair has its replicas, exactly when the pass does not converge or pops
   no row of the default namespace for a pair that wants any.
   */
  lemma QuietMeansRunningIff(w: R.World, es: seq<R.Event>, ts: seq<R.Target>, hosts: map<string, Host>)
    requires R.CompletePass(w, es) && Lists(w, ts) && Deployed(w, hosts)
    ensures (R.Quiet(R.Run(w, es)) ==> AllRun(w, ts, hosts))
            <==> (R.Convergent(w) ==> forall a, s | R.Live(w, a, s) :: PairSafe(w, a, s))
  {
    R.ReconcileConvergesIff(w, es);
    forall a, s | R.Live(w, a, s)
      ensures RunsInEveryOrder(w, ts, hosts[a], a, s) <==> PairSafe(w, a, s)
    {
      PairRunsIff(w, ts, hosts[a], a, s);
    }
  }

  /** One teardown of such a namespace beside the redeploy may even be interleaved with it, call by call. */
  lemma InterleavedPairRuns(host: D.Host, next: nat, es: seq<D.Event>, input: D.Input, gone: string)
    requires D.OwnIds(host, next) && D.Apart(input, gone)
    requires D.BothDone(D.Run(D.World(host, next, D.TStart, D.RStart), es, input, gone), input)
    ensures Wanted(D.Run(D.World(host, next, D.TStart, D.RStart), es, input, gone).host, input)
  {
    D.InterleavingsAgree(host, next, es, input, gone);
    RedeployWants(D.TornDown(host, input.service, gone), next, input);
  }

  // ------------------------------------------------------- quiet while nothing runs

  const SHOP := R.Pipeline(1, [], R.Balancer("none"), Some("shop"), map[])
  const WAS := R.Row("a", "kaiad", Some("first"), Some(1))

  /** A service that ran in the default namespace and is now to run in another. */
  const MOVED := R.World(
    map["a" := R.Agent("prod", true, "kaiad")], map["s" := ""], {("a", "s")},
    map["s" := R.Build(2, "second", R.Single(SHOP))], map[("s", "prod") := WAS])

  const TARGET := R.Target("a", "s", Some(("prod", WAS)))

  lemma MovedTargets()
    ensures Lists(MOVED, [TARGET]) && R.Live(MOVED, "a", "s") && R.Pops(MOVED, TARGET)
  {
    forall t | R.IsTarget(MOVED, t)
      ensures t == TARGET
    {
      assert R.Owns(MOVED, "a", "s", "prod");
    }
    assert R.IsTarget(MOVED, TARGET);
  }

  lemma MovedPass()
    ensures R.CompletePass(MOVED, [R.Visited(TARGET), R.Reported("a", "s")])
  {
    MovedTargets();
    var es := [R.Visited(TARGET), R.Reported("a", "s")];
    assert R.DispatchedPair(MOVED, "a", "s");
    forall a, s
      ensures R.Answered(MOVED, es, a, s)
    {
      assert es[0..] == es;
      assert es[1] == R.Reported("a", "s");
    }
  }

  const LAST := R.Teardown("a", "s", "prod", "kaiad")

  lemma MovedTeardownSent()
    ensures LAST in SentTo("a", R.AllCommands(MOVED, [TARGET]))
  {
    MovedTargets();
    assert R.CommandsFor(MOVED, TARGET)[0] == LAST;
    AllCommandsMeans(MOVED, [TARGET], LAST);
    SentToMeans("a", R.AllCommands(MOVED, [TARGET]), LAST);
  }

  lemma MovedGoesQuiet()
    ensures R.Quiet(R.Run(MOVED, [R.Visited(TARGET), R.Reported("a", "s")]))
  {
    MovedTargets();
    MovedPass();
    R.ReconcileConvergesIff(MOVED, [R.Visited(TARGET), R.Reported("a", "s")]);
  }

  predicate NothingOf(s: string, host: D.Host) {
    forall n | n in host :: host[n].service != s
  }

  /** The rows match and the next pass is quiet; with the teardown executed last, the service is gone. */
  lemma QuietWhileNothingRuns(h: Host)
    ensures R.Quiet(R.Run(MOVED, [R.Visited(TARGET), R.Reported("a", "s")]))
    ensures exists cs :: OrderOf(MOVED, [TARGET], "a", cs) && NothingOf("s", ExecAll(h, cs).containers)
  {
    MovedGoesQuiet();
    MovedTeardownSent();
    var front := OrderEndingWith(MOVED, [TARGET], "a", LAST);
    ExecLast(h, front, LAST);
    assert NothingOf("s", ExecAll(h, front + [LAST]).containers);
  }
}
