/**
 The deployment reconciler: bound agents, the latest build of each service, and the status
 rows agents report, keyed by (service, environment). One pass compares every target with
 its row and dispatches a redeploy where they differ; agents report back in any order.
 */
module Reconcile {
  import opened Wrappers

  // -------------------------------------------------------- pipeline definitions

  datatype Domain = Domain(host: string, port: nat)

  datatype Balancer = Balancer(kind: string)

  datatype Overrides = Overrides(
    instances: Option<nat>, domains: seq<Domain>, balancer: Option<Balancer>, namespace: Option<string>)

  datatype Pipeline = Pipeline(
    instances: nat, domains: seq<Domain>, balancer: Balancer, namespace: Option<string>,
    environments: map<string, Overrides>)

  datatype Resolved = Resolved(instances: nat, domains: seq<Domain>, balancer: Balancer, namespace: string)

  function OrElse<T>(o: Option<T>, otherwise: T): T {
    if o.Some? then o.value else otherwise
  }

  /** Per-environment fields win over the top-level ones; no namespace anywhere is "". */
  function ResolveEnvironment(p: Pipeline, env: string): Resolved {
    if env !in p.environments then
      Resolved(p.instances, p.domains, p.balancer, OrElse(p.namespace, ""))
    else
      var o := p.environments[env];
      Resolved(OrElse(o.instances, p.instances), if o.domains != [] then o.domains else p.domains,
               OrElse(o.balancer, p.balancer), OrElse(o.namespace, OrElse(p.namespace, "")))
  }

  /** The overrides of an environment, none where it is not listed. */
  function OverridesOf(p: Pipeline, env: string): Overrides {
    if env in p.environments then p.environments[env] else Overrides(None, [], None, None)
  }

  /**
   Two definitions that override alike resolve alike exactly when they agree on each default
   the environment leaves open, a missing namespace counting as the empty one.
   */
  lemma ResolveAlikeIff(p: Pipeline, q: Pipeline, env: string)
    requires OverridesOf(p, env) == OverridesOf(q, env)
    ensures var o := OverridesOf(p, env);
            ResolveEnvironment(p, env) == ResolveEnvironment(q, env)
            <==> && (o.instances.None? ==> p.instances == q.instances)
                 && (o.domains == [] ==> p.domains == q.domains)
                 && (o.balancer.None? ==> p.balancer == q.balancer)
                 && (o.namespace.None? ==> OrElse(p.namespace, "") == OrElse(q.namespace, ""))
  {
  }

  /** Each field is the override where the environment gives one, and the definition's own where it does not. */
  lemma EnvironmentValues(p: Pipeline, env: string)
    ensures var r := ResolveEnvironment(p, env);
            && (env !in p.environments ==> r.instances == p.instances && r.domains == p.domains && r.balancer == p.balancer)
            && (env !in p.environments && p.namespace.None? ==> r.namespace == "")
            && (env !in p.environments && p.namespace.Some? ==> Some(r.namespace) == p.namespace)
            && (env in p.environments ==>
                  var o := p.environments[env];
                  && (o.instances.Some? ==> Some(r.instances) == o.instances)
                  && (o.instances.None? ==> r.instances == p.instances)
                  && (o.domains != [] ==> r.domains == o.domains)
                  && (o.domains == [] ==> r.domains == p.domains)
                  && (o.balancer.Some? ==> Some(r.balancer) == o.balancer)
                  && (o.balancer.None? ==> r.balancer == p.balancer)
                  && (o.namespace.Some? ==> Some(r.namespace) == o.namespace)
                  && (o.namespace.None? && p.namespace.Some? ==> Some(r.namespace) == p.namespace)
                  && (o.namespace.None? && p.namespace.None? ==> r.namespace == ""))
  {
  }

  datatype ParseResult = Unparsable | Single(pipeline: Pipeline) | Multi(pipelines: map<string, Pipeline>)

  /** A service without a pipeline name takes a single pipeline, one with a name its entry of several. */
  function SelectPipeline(parsed: ParseResult, name: string): (r: Option<Pipeline>)
    ensures r.Some? <==> (parsed.Single? && name == "") || (parsed.Multi? && name != "" && name in parsed.pipelines)
    ensures r.Some? ==> r.value == if parsed.Single? then parsed.pipeline else parsed.pipelines[name]
  {
    match parsed
    case Unparsable => None
    case Single(p) => if name != "" then None else Some(p)
    case Multi(ps) => if name != "" && name in ps then Some(ps[name]) else None
  }

  // -------------------------------------------------------------------- the world

  /** `defaultNs` is what the agent's runtime uses when a command names no namespace. */
  datatype Agent = Agent(env: string, connected: bool, defaultNs: string)

  datatype Build = Build(id: nat, imageRef: string, parsed: ParseResult)

  datatype Row = Row(agent: string, namespace: string, imageRef: Option<string>, buildId: Option<nat>)

  /**
   One tenant. `services` gives each service's pipeline name ("" for none), `builds` its latest
   successful build with an image, `rows` is keyed by (service, environment).
   */
  datatype World = World(
    agents: map<string, Agent>, services: map<string, string>, bindings: set<(string, string)>,
    builds: map<string, Build>, rows: map<(string, string), Row>)

  predicate Bound(w: World, a: string, s: string) {
    (a, s) in w.bindings && a in w.agents && s in w.services && s in w.builds
  }

  function Desired(w: World, a: string, s: string): Option<Resolved>
    requires Bound(w, a, s)
  {
    var picked := SelectPipeline(w.builds[s].parsed, w.services[s]);
    if picked.None? then None else Some(ResolveEnvironment(picked.value, w.agents[a].env))
  }

  /** The pass does not skip the pair: the agent is connected and its pipeline resolves. */
  predicate Live(w: World, a: string, s: string) {
    Bound(w, a, s) && w.agents[a].connected && Desired(w, a, s).Some?
  }

  /** A row agent `a` owns for service `s`. */
  predicate Owns(w: World, a: string, s: string, env: string) {
    (s, env) in w.rows && w.rows[(s, env)].agent == a
  }

  /** One row of listAllDeployTargets: a bound pair left-joined with each row of that agent. */
  datatype Target = Target(agent: string, service: string, current: Option<(string, Row)>)

  ghost predicate IsTarget(w: World, t: Target) {
    && Bound(w, t.agent, t.service)
    && match t.current
       case None => forall env :: !Owns(w, t.agent, t.service, env)
       case Some((env, row)) => Owns(w, t.agent, t.service, env) && w.rows[(t.service, env)] == row
  }

  /** An empty namespace on either side matches anything. */
  predicate NamespaceDrift(desired: string, current: string) {
    desired != "" && current != "" && current != desired
  }

  predicate Drifts(w: World, t: Target)
    requires Live(w, t.agent, t.service)
  {
    match t.current
    case None => true
    case Some((env, row)) =>
      || row.imageRef != Some(w.builds[t.service].imageRef)
      || row.buildId != Some(w.builds[t.service].id)
      || env != w.agents[t.agent].env
      || NamespaceDrift(Desired(w, t.agent, t.service).value.namespace, row.namespace)
  }

  predicate Dispatches(w: World, t: Target) {
    Live(w, t.agent, t.service) && Drifts(w, t)
  }

  /** The target's namespace flipped: the pair's rows are popped and a teardown precedes the redeploy. */
  predicate Pops(w: World, t: Target) {
    && Live(w, t.agent, t.service)
    && t.current.Some?
    && NamespaceDrift(Desired(w, t.agent, t.service).value.namespace, t.current.value.1.namespace)
  }

  function WithoutRowsOf(rows: map<(string, string), Row>, a: string, s: string): map<(string, string), Row> {
    map k | k in rows && !(k.0 == s && rows[k].agent == a) :: rows[k]
  }

  // ------------------------------------------------------------------- the events

  /** The pass reaches a target it listed, or an agent reports a redeploy it has executed. */
  datatype Event = Visited(target: Target) | Reported(agent: string, service: string)

  function Visit(w: World, t: Target): World {
    if Pops(w, t) then w.(rows := WithoutRowsOf(w.rows, t.agent, t.service)) else w
  }

  /** What agent `a` reports after executing a redeploy of `s`. */
  function ReportOf(w: World, a: string, s: string): Row
    requires Live(w, a, s)
  {
    var ns := Desired(w, a, s).value.namespace;
    Row(a, if ns != "" then ns else w.agents[a].defaultNs, Some(w.builds[s].imageRef), Some(w.builds[s].id))
  }

  function Step(w: World, e: Event): World {
    match e
    case Visited(t) => Visit(w, t)
    case Reported(a, s) =>
      if Live(w, a, s) then w.(rows := w.rows[(s, w.agents[a].env) := ReportOf(w, a, s)]) else w
  }

  function Run(w: World, es: seq<Event>): World {
    if es == [] then w else Step(Run(w, es[..|es| - 1]), es[|es| - 1])
  }

  ghost predicate DispatchedPair(w: World, a: string, s: string) {
    exists t :: IsTarget(w, t) && t.agent == a && t.service == s && Dispatches(w, t)
  }

  /** Only listed targets are visited and only dispatched redeploys are reported. */
  ghost predicate Caused(w: World, es: seq<Event>) {
    forall e | e in es ::
      (e.Visited? ==> IsTarget(w, e.target)) && (e.Reported? ==> DispatchedPair(w, e.agent, e.service))
  }

  predicate Redeploys(w: World, e: Event, a: string, s: string) {
    e.Visited? && e.target.agent == a && e.target.service == s && Dispatches(w, e.target)
  }

  /** Every redeploy of the pair is reported at some later point. */
  ghost predicate Answered(w: World, es: seq<Event>, a: string, s: string) {
    forall i | 0 <= i < |es| && Redeploys(w, es[i], a, s) :: Reported(a, s) in es[i..]
  }

  /** One pass whose redeploys are all executed and reported, in any interleaving. */
  ghost predicate CompletePass(w: World, es: seq<Event>) {
    && Caused(w, es)
    && (forall t | IsTarget(w, t) :: Visited(t) in es)
    && forall a, s :: Answered(w, es, a, s)
  }

  /** The next pass dispatches nothing. */
  ghost predicate Quiet(w: World) {
    forall t | IsTarget(w, t) :: !Dispatches(w, t)
  }

  // ------------------------------------------------------------ the exact condition

  /** Some row of the pair has a drifted namespace, so that all the pair's rows are popped. */
  ghost predicate PairPopped(w: World, a: string, s: string) {
    exists env :: Owns(w, a, s, env) && Pops(w, Target(a, s, Some((env, w.rows[(s, env)]))))
  }

  ghost predicate TakenOver(w: World, s: string, env: string) {
    exists c :: Live(w, c, s) && w.agents[c].env == env
  }

  ghost predicate OneAgentPerEnvironment(w: World) {
    forall a, b, s | Live(w, a, s) && Live(w, b, s) && w.agents[a].env == w.agents[b].env :: a == b
  }

  /** A row an agent left under another environment is popped by the pass or taken over by another agent. */
  ghost predicate StaleRowsGo(w: World) {
    forall a, s, env | Live(w, a, s) && Owns(w, a, s, env) && env != w.agents[a].env ::
      PairPopped(w, a, s) || TakenOver(w, s, env)
  }

  ghost predicate Convergent(w: World) {
    OneAgentPerEnvironment(w) && StaleRowsGo(w)
  }

  // ---------------------------------------------------------------- runs, in pieces

  predicate SameFleet(w: World, v: World) {
    w.agents == v.agents && w.services == v.services && w.bindings == v.bindings && w.builds == v.builds
  }

  lemma {:induction false} FleetFixed(w: World, es: seq<Event>)
    ensures SameFleet(w, Run(w, es))
  {
    if es != [] {
      FleetFixed(w, es[..|es| - 1]);
    }
  }

  lemma CausedPrefix(w: World, es: seq<Event>)
    requires es != [] && Caused(w, es)
    ensures Caused(w, es[..|es| - 1])
    ensures es[|es| - 1] in es
  {
    var front := es[..|es| - 1];
    forall e | e in front
      ensures e in es
    {
    }
  }

  /** Every row is an original one, or the report of a redeployed pair under its agent's environment. */
  ghost predicate Reasoned(w: World, v: World, k: (string, string)) {
    k in v.rows ==>
      || (k in w.rows && v.rows[k] == w.rows[k])
      || (exists a :: DispatchedPair(w, a, k.0) && Live(w, a, k.0) && w.agents[a].env == k.1 && v.rows[k] == ReportOf(w, a, k.0))
  }

  lemma {:induction false} RowsAreReasoned(w: World, es: seq<Event>, k: (string, string))
    requires Caused(w, es)
    ensures Reasoned(w, Run(w, es), k)
  {
    if es != [] {
      var front, e := es[..|es| - 1], es[|es| - 1];
      CausedPrefix(w, es);
      RowsAreReasoned(w, front, k);
      FleetFixed(w, front);
      if e.Reported? && k == (e.service, w.agents[e.agent].env) {
        assert DispatchedPair(w, e.agent, k.0);
      }
    }
  }

  /** A stale row that nothing pops and nobody takes over is there after the pass. */
  lemma {:induction false} StaleRowStays(w: World, es: seq<Event>, a: string, s: string, env: string)
    requires Caused(w, es)
    requires Owns(w, a, s, env) && !PairPopped(w, a, s) && !TakenOver(w, s, env)
    ensures (s, env) in Run(w, es).rows && Run(w, es).rows[(s, env)] == w.rows[(s, env)]
  {
    if es != [] {
      var front, e := es[..|es| - 1], es[|es| - 1];
      CausedPrefix(w, es);
      StaleRowStays(w, front, a, s, env);
      FleetFixed(w, front);
      if e.Visited? && e.target.agent == a && e.target.service == s && e.target.current.Some? {
        var (here, row) := e.target.current.value;
        assert Owns(w, a, s, here) && e.target == Target(a, s, Some((here, w.rows[(s, here)])));
        assert !Pops(w, e.target);
      }
    }
  }

  /** Once the pair was popped, or the key reported by another agent, the agent owns no such row again. */
  lemma {:induction false} RemovedStaysRemoved(w: World, es: seq<Event>, e: Event, a: string, s: string, env: string)
    requires Caused(w, es) && e in es
    requires Live(w, a, s) && env != w.agents[a].env
    requires || (e.Visited? && e.target.agent == a && e.target.service == s && Pops(w, e.target))
             || (e.Reported? && e.service == s && Live(w, e.agent, s) && w.agents[e.agent].env == env)
    ensures !Owns(Run(w, es), a, s, env)
  {
    var front, last := es[..|es| - 1], es[|es| - 1];
    CausedPrefix(w, es);
    FleetFixed(w, front);
    if last != e {
      assert es == front + [last];
      RemovedStaysRemoved(w, front, e, a, s, env);
    }
  }

  /** The pair's row under its own environment matches the latest build. */
  predicate Settled(w: World, a: string, s: string)
    requires Live(w, a, s)
  {
    var env := w.agents[a].env;
    Owns(w, a, s, env) && !Drifts(w, Target(a, s, Some((env, w.rows[(s, env)]))))
  }

  /** Nothing but the pair's own redeploys touches a settled row. */
  lemma OthersKeepSettled(w: World, v: World, e: Event, a: string, s: string)
    requires SameFleet(w, v) && Live(w, a, s) && OneAgentPerEnvironment(w) && Settled(v, a, s)
    requires e.Reported? ==> DispatchedPair(w, e.agent, e.service)
    requires !Redeploys(w, e, a, s)
    ensures Settled(Step(v, e), a, s)
  {
    match e
    case Visited(t) =>
      if Pops(v, t) {
        assert Dispatches(w, t);
      }
    case Reported(b, r) =>
      assert Live(w, b, r);
  }

  /** After its last redeploy was reported, a pair is settled. */
  lemma {:induction false} AnsweredSettles(w: World, es: seq<Event>, a: string, s: string)
    requires Caused(w, es) && Answered(w, es, a, s) && OneAgentPerEnvironment(w)
    requires Live(w, a, s)
    requires Settled(w, a, s) || Reported(a, s) in es
    ensures Live(Run(w, es), a, s) && Settled(Run(w, es), a, s)
  {
    FleetFixed(w, es);
    if es != [] {
      var front, last := es[..|es| - 1], es[|es| - 1];
      FleetFixed(w, front);
      CausedPrefix(w, es);
      if last != Reported(a, s) {
        assert es == front + [last];
        AnsweredPrefix(w, es, a, s);
        AnsweredSettles(w, front, a, s);
        OthersKeepSettled(w, Run(w, front), last, a, s);
      }
    }
  }

  lemma AnsweredPrefix(w: World, es: seq<Event>, a: string, s: string)
    requires es != [] && Answered(w, es, a, s) && es[|es| - 1] != Reported(a, s)
    ensures Answered(w, es[..|es| - 1], a, s) && !Redeploys(w, es[|es| - 1], a, s)
  {
    var front, last := es[..|es| - 1], es[|es| - 1];
    assert es[|es| - 1..] == [last];
    forall i | 0 <= i < |front| && Redeploys(w, front[i], a, s)
      ensures Reported(a, s) in front[i..]
    {
      assert Redeploys(w, es[i], a, s);
      assert es[i..] == front[i..] + [last];
    }
  }

  // --------------------------------------------------------------------- results

  /** A live pair without a dispatched target is settled already, and all its rows are. */
  lemma UndispatchedIsSettled(w: World, a: string, s: string)
    requires Live(w, a, s) && !DispatchedPair(w, a, s)
    ensures Settled(w, a, s)
    ensures forall env | Owns(w, a, s, env) :: env == w.agents[a].env
  {
    forall env | Owns(w, a, s, env)
      ensures env == w.agents[a].env && !Drifts(w, Target(a, s, Some((env, w.rows[(s, env)]))))
    {
      assert IsTarget(w, Target(a, s, Some((env, w.rows[(s, env)]))));
    }
    assert Dispatches(w, Target(a, s, None));
    assert !IsTarget(w, Target(a, s, None));
  }

  /**
   The row a pair is to have: its agent's environment, the latest build, and no other namespace than the
   wanted one.
   */
  predicate Current(w: World, a: string, s: string, env: string)
    requires Live(w, a, s)
  {
    && (s, env) in w.rows
    && var row := w.rows[(s, env)];
       && row.agent == a && env == w.agents[a].env
       && row.imageRef == Some(w.builds[s].imageRef)
       && row.buildId == Some(w.builds[s].id)
       && (row.namespace == "" || Desired(w, a, s).value.namespace in {"", row.namespace})
  }

  /** A pass leaves a live pair alone exactly when it has a row, and each of its rows is the one it is to have. */
  lemma LeftAloneIff(w: World, a: string, s: string)
    requires Live(w, a, s)
    ensures !DispatchedPair(w, a, s)
            <==> (exists env :: Owns(w, a, s, env)) && forall env | Owns(w, a, s, env) :: Current(w, a, s, env)
  {
    if !DispatchedPair(w, a, s) {
      UndispatchedIsSettled(w, a, s);
      forall env | Owns(w, a, s, env)
        ensures Current(w, a, s, env)
      {
        assert IsTarget(w, Target(a, s, Some((env, w.rows[(s, env)]))));
      }
    } else {
      var t :| IsTarget(w, t) && t.agent == a && t.service == s && Dispatches(w, t);
      if t.current.Some? {
        assert Owns(w, a, s, t.current.value.0) && !Current(w, a, s, t.current.value.0);
      }
    }
  }

  /** The row of a redeployed pair is what its last redeploy reported. */
  lemma {:induction false} ReportedRow(w: World, es: seq<Event>, a: string, s: string)
    requires Caused(w, es) && Answered(w, es, a, s) && OneAgentPerEnvironment(w)
    requires Live(w, a, s) && Reported(a, s) in es
    ensures var key := (s, w.agents[a].env);
            key in Run(w, es).rows && Run(w, es).rows[key] == ReportOf(w, a, s)
  {
    var front, last := es[..|es| - 1], es[|es| - 1];
    FleetFixed(w, front);
    CausedPrefix(w, es);
    if last != Reported(a, s) {
      assert es == front + [last];
      AnsweredPrefix(w, es, a, s);
      ReportedRow(w, front, a, s);
      if last.Visited? && Pops(Run(w, front), last.target) {
        assert Dispatches(w, last.target);
      }
    }
  }

  /**
   After a convergent pass every live pair's one row carries the image and the id of its latest
   build, and where the pass redeployed it, the namespace the agent put it in.
   */
  lemma RowsBecomeCurrent(w: World, es: seq<Event>, a: string, s: string)
    requires CompletePass(w, es) && Convergent(w) && Live(w, a, s)
    ensures var rows, env, wanted := Run(w, es).rows, w.agents[a].env, Desired(w, a, s).value.namespace;
            && (s, env) in rows && rows[(s, env)].agent == a
            && rows[(s, env)].imageRef == Some(w.builds[s].imageRef)
            && rows[(s, env)].buildId == Some(w.builds[s].id)
            && (DispatchedPair(w, a, s) ==>
                  rows[(s, env)].namespace == if wanted == "" then w.agents[a].defaultNs else wanted)
            && forall e | (s, e) in rows && rows[(s, e)].agent == a :: e == env
  {
    FleetFixed(w, es);
    ConvergentPairSettles(w, es, a, s);
    if DispatchedPair(w, a, s) {
      DispatchedIsReported(w, es, a, s);
      ReportedRow(w, es, a, s);
    }
    forall e | (s, e) in Run(w, es).rows && Run(w, es).rows[(s, e)].agent == a
      ensures e == w.agents[a].env
    {
      assert Owns(Run(w, es), a, s, e);
    }
  }

  lemma DispatchedIsReported(w: World, es: seq<Event>, a: string, s: string)
    requires CompletePass(w, es) && DispatchedPair(w, a, s)
    ensures Reported(a, s) in es
  {
    var t :| IsTarget(w, t) && t.agent == a && t.service == s && Dispatches(w, t);
    assert Visited(t) in es;
    var i :| 0 <= i < |es| && es[i] == Visited(t);
    assert Answered(w, es, a, s) && Redeploys(w, es[i], a, s);
    assert Reported(a, s) in es[i..];
  }

  lemma ConvergentPairSettles(w: World, es: seq<Event>, a: string, s: string)
    requires CompletePass(w, es) && Convergent(w) && Live(w, a, s)
    ensures Live(Run(w, es), a, s) && Settled(Run(w, es), a, s)
    ensures forall env | Owns(Run(w, es), a, s, env) :: env == w.agents[a].env
  {
    if DispatchedPair(w, a, s) {
      DispatchedIsReported(w, es, a, s);
    } else {
      UndispatchedIsSettled(w, a, s);
    }
    AnsweredSettles(w, es, a, s);
    forall env | Owns(Run(w, es), a, s, env)
      ensures env == w.agents[a].env
    {
      if env != w.agents[a].env {
        RowsAreReasoned(w, es, (s, env));
        assert Owns(w, a, s, env);
        StaleRowRemoved(w, es, a, s, env);
      }
    }
  }

  lemma StaleRowRemoved(w: World, es: seq<Event>, a: string, s: string, env: string)
    requires CompletePass(w, es) && Live(w, a, s) && Owns(w, a, s, env) && env != w.agents[a].env
    requires PairPopped(w, a, s) || TakenOver(w, s, env)
    ensures !Owns(Run(w, es), a, s, env)
  {
    if PairPopped(w, a, s) {
      var here :| Owns(w, a, s, here) && Pops(w, Target(a, s, Some((here, w.rows[(s, here)]))));
      var t := Target(a, s, Some((here, w.rows[(s, here)])));
      assert IsTarget(w, t);
      RemovedStaysRemoved(w, es, Visited(t), a, s, env);
    } else {
      var c :| Live(w, c, s) && w.agents[c].env == env;
      if !DispatchedPair(w, c, s) {
        UndispatchedIsSettled(w, c, s);
      }
      assert DispatchedPair(w, c, s);
      DispatchedIsReported(w, es, c, s);
      RemovedStaysRemoved(w, es, Reported(c, s), a, s, env);
    }
  }

  /** The next pass is silent when no two live agents share a key and every stale row goes. */
  lemma ConvergentGoesQuiet(w: World, es: seq<Event>)
    requires CompletePass(w, es) && Convergent(w)
    ensures Quiet(Run(w, es))
  {
    var v := Run(w, es);
    FleetFixed(w, es);
    forall t | IsTarget(v, t) && Live(v, t.agent, t.service)
      ensures !Drifts(v, t)
    {
      ConvergentPairSettles(w, es, t.agent, t.service);
      assert Owns(v, t.agent, t.service, w.agents[t.agent].env);
    }
  }

  /** Without the condition the world stays without it, and the next pass dispatches something. */
  lemma OtherwiseNeverQuiet(w: World, es: seq<Event>)
    requires CompletePass(w, es) && !Convergent(w)
    ensures !Convergent(Run(w, es)) && !Quiet(Run(w, es))
  {
    var v := Run(w, es);
    FleetFixed(w, es);
    if !OneAgentPerEnvironment(w) {
      var a, b, s :| Live(w, a, s) && Live(w, b, s) && w.agents[a].env == w.agents[b].env && a != b;
      assert Live(v, a, s) && Live(v, b, s);
      SharedKeyDispatches(v, a, b, s);
    } else {
      var a, s, env :| Live(w, a, s) && Owns(w, a, s, env) && env != w.agents[a].env
                       && !PairPopped(w, a, s) && !TakenOver(w, s, env);
      StaleRowStays(w, es, a, s, env);
      StillNotPopped(w, es, a, s);
      assert Live(v, a, s) && Owns(v, a, s, env) && !TakenOver(v, s, env);
      assert IsTarget(v, Target(a, s, Some((env, v.rows[(s, env)]))));
    }
  }

  lemma SharedKeyDispatches(v: World, a: string, b: string, s: string)
    requires Live(v, a, s) && Live(v, b, s) && v.agents[a].env == v.agents[b].env && a != b
    ensures !Quiet(v)
  {
    var loser := if Owns(v, a, s, v.agents[a].env) then b else a;
    if !DispatchedPair(v, loser, s) {
      UndispatchedIsSettled(v, loser, s);
    }
  }

  lemma StillNotPopped(w: World, es: seq<Event>, a: string, s: string)
    requires Caused(w, es) && Live(w, a, s) && !PairPopped(w, a, s)
    ensures !PairPopped(Run(w, es), a, s)
  {
    var v := Run(w, es);
    FleetFixed(w, es);
    forall env | Owns(v, a, s, env)
      ensures !Pops(v, Target(a, s, Some((env, v.rows[(s, env)]))))
    {
      RowsAreReasoned(w, es, (s, env));
      if Owns(w, a, s, env) {
        assert !Pops(w, Target(a, s, Some((env, w.rows[(s, env)]))));
      }
    }
  }

  /**
   After one pass whose redeploys are all executed and reported, in any order, the next pass
   dispatches nothing exactly when no two live agents share a (service, environment) and every
   row an agent left under another environment is popped or taken over.
   */
  lemma ReconcileConvergesIff(w: World, es: seq<Event>)
    requires CompletePass(w, es)
    ensures Quiet(Run(w, es)) <==> Convergent(w)
  {
    if Convergent(w) {
      ConvergentGoesQuiet(w, es);
    } else {
      OtherwiseNeverQuiet(w, es);
    }
  }

  // ------------------------------------------------------ changing an agent's environment

  /** redeployAgentForEnvChange: rows are popped only where the resolved namespaces differ. */
  function ChangeEnvironment(w: World, a: string, env: string): World
    requires a in w.agents
  {
    var moved := w.(agents := w.agents[a := w.agents[a].(env := env)]);
    if env == w.agents[a].env then w
    else
      moved.(rows := map k | k in w.rows && !(w.rows[k].agent == a && NamespaceFlips(w, a, k.0, env)) :: w.rows[k])
  }

  predicate NamespaceFlips(w: World, a: string, s: string, env: string) {
    && Bound(w, a, s)
    && Desired(w, a, s).Some?
    && Desired(w, a, s).value.namespace
       != ResolveEnvironment(SelectPipeline(w.builds[s].parsed, w.services[s]).value, env).namespace
  }

  /**
   A move gives the agent its environment and pops the rows of exactly those of its services
   whose namespace resolves to another one there; a move to the same environment does nothing.
   */
  lemma MoveMeans(w: World, a: string, env: string)
    requires a in w.agents
    ensures var v, was := ChangeEnvironment(w, a, env), w.agents[a].env;
            && v.agents == w.agents[a := Agent(env, w.agents[a].connected, w.agents[a].defaultNs)]
            && v.services == w.services && v.bindings == w.bindings && v.builds == w.builds
            && forall k ::
                 && (k in v.rows ==> k in w.rows && v.rows[k] == w.rows[k])
                 && (k in w.rows ==>
                       (k !in v.rows
                        <==> && w.rows[k].agent == a && (a, k.0) in w.bindings && k.0 in w.services && k.0 in w.builds
                             && var picked := SelectPipeline(w.builds[k.0].parsed, w.services[k.0]);
                                picked.Some? && ResolveEnvironment(picked.value, was).namespace
                                                != ResolveEnvironment(picked.value, env).namespace))
  {
  }

  /** Before any report: what the move leaves is convergent under this condition on the old rows. */
  lemma EnvironmentMoveIff(w: World, a: string, env: string)
    requires a in w.agents && env != w.agents[a].env && w.agents[a].connected
    requires forall k | k in w.rows && w.rows[k].agent == a :: k.1 == w.agents[a].env
    requires var moved := ChangeEnvironment(w, a, env);
             OneAgentPerEnvironment(moved)
             && forall b, s, e | b != a && Live(moved, b, s) && Owns(moved, b, s, e) :: e == moved.agents[b].env
    ensures var moved := ChangeEnvironment(w, a, env);
            var was := w.agents[a].env;
            Convergent(moved) <==>
            forall s | Live(w, a, s) && Owns(w, a, s, was) ::
              || NamespaceFlips(w, a, s, env)
              || NamespaceDrift(Desired(moved, a, s).value.namespace, w.rows[(s, was)].namespace)
              || TakenOver(moved, s, was)
  {
    var moved := ChangeEnvironment(w, a, env);
    var was := w.agents[a].env;
    forall s | Live(w, a, s) && Owns(w, a, s, was) && !NamespaceFlips(w, a, s, env)
      ensures Owns(moved, a, s, was) && Live(moved, a, s)
      ensures PairPopped(moved, a, s)
              <==> NamespaceDrift(Desired(moved, a, s).value.namespace, w.rows[(s, was)].namespace)
    {
      assert forall e | Owns(moved, a, s, e) :: e == was;
    }
    forall s | Live(moved, a, s)
      ensures Live(w, a, s)
    {
    }
  }

  ghost predicate ReportsOf(es: seq<Event>, a: string) {
    forall e | e in es :: e.Reported? && e.agent == a
  }

  /** Reports of one agent change rows under its environment only, to what it reports. */
  lemma {:induction false} ReportsOnly(w: World, es: seq<Event>, a: string, k: (string, string))
    requires ReportsOf(es, a) && a in w.agents
    ensures var v := Run(w, es);
            || ((k in v.rows <==> k in w.rows) && (k in w.rows ==> v.rows[k] == w.rows[k]))
            || (k.1 == w.agents[a].env && Live(w, a, k.0) && k in v.rows && v.rows[k] == ReportOf(w, a, k.0))
  {
    if es != [] {
      var front, e := es[..|es| - 1], es[|es| - 1];
      assert e in es && forall f | f in front :: f in es;
      ReportsOnly(w, front, a, k);
      FleetFixed(w, front);
    }
  }

  ghost predicate StaleGo(w: World, a: string, s: string)
    requires Live(w, a, s)
  {
    forall env | Owns(w, a, s, env) && env != w.agents[a].env :: PairPopped(w, a, s) || TakenOver(w, s, env)
  }

  /** The agent's own pair: its rows are those it had and, where it reported, one that matches. */
  lemma OwnReportsKeepStale(w: World, es: seq<Event>, a: string, s: string)
    requires ReportsOf(es, a) && Live(w, a, s)
    requires forall e | Owns(w, a, s, e) :: e != w.agents[a].env
    ensures Live(Run(w, es), a, s) && (StaleGo(Run(w, es), a, s) <==> StaleGo(w, a, s))
  {
    var v := Run(w, es);
    FleetFixed(w, es);
    forall e
      ensures e != w.agents[a].env ==> (Owns(v, a, s, e) <==> Owns(w, a, s, e))
      ensures Owns(w, a, s, e) ==> Owns(v, a, s, e) && v.rows[(s, e)] == w.rows[(s, e)]
      ensures Owns(v, a, s, e) && !Owns(w, a, s, e) ==> v.rows[(s, e)] == ReportOf(w, a, s)
    {
      ReportsOnly(w, es, a, (s, e));
    }
    if PairPopped(w, a, s) {
      var e :| Owns(w, a, s, e) && Pops(w, Target(a, s, Some((e, w.rows[(s, e)]))));
      assert Pops(v, Target(a, s, Some((e, v.rows[(s, e)]))));
    }
    if PairPopped(v, a, s) {
      var e :| Owns(v, a, s, e) && Pops(v, Target(a, s, Some((e, v.rows[(s, e)]))));
      assert Owns(w, a, s, e) && Pops(w, Target(a, s, Some((e, w.rows[(s, e)]))));
    }
    assert forall e :: TakenOver(v, s, e) <==> TakenOver(w, s, e);
  }

  /** Another agent's pair: it keeps no row it did not have. */
  lemma OtherReportsKeepStale(w: World, es: seq<Event>, a: string, b: string, s: string)
    requires ReportsOf(es, a) && a in w.agents && b != a && Live(w, b, s)
    requires forall e | Owns(w, b, s, e) :: e == w.agents[b].env
    ensures Live(Run(w, es), b, s) && StaleGo(Run(w, es), b, s) && StaleGo(w, b, s)
  {
    var v := Run(w, es);
    FleetFixed(w, es);
    forall e | Owns(v, b, s, e)
      ensures Owns(w, b, s, e)
    {
      ReportsOnly(w, es, a, (s, e));
    }
  }

  /** The redeploys of the move, once reported, neither remove a stale row nor leave one. */
  lemma ReportsKeepConvergence(w: World, es: seq<Event>, a: string)
    requires ReportsOf(es, a) && a in w.agents && OneAgentPerEnvironment(w)
    requires forall s, e | Owns(w, a, s, e) :: e != w.agents[a].env
    requires forall b, s, e | b != a && Live(w, b, s) && Owns(w, b, s, e) :: e == w.agents[b].env
    ensures Convergent(Run(w, es)) <==> Convergent(w)
  {
    var v := Run(w, es);
    FleetFixed(w, es);
    forall b, s
      ensures Live(v, b, s) <==> Live(w, b, s)
      ensures Live(w, b, s) ==> (StaleGo(v, b, s) <==> StaleGo(w, b, s))
    {
      if Live(w, b, s) {
        if b == a {
          OwnReportsKeepStale(w, es, a, s);
        } else {
          OtherReportsKeepStale(w, es, a, b, s);
        }
      }
    }
    assert StaleRowsGo(v) <==> forall b, s | Live(v, b, s) :: StaleGo(v, b, s);
    assert StaleRowsGo(w) <==> forall b, s | Live(w, b, s) :: StaleGo(w, b, s);
  }

  /**
   Moving a settled agent to a fresh environment, with any of its redeploys reported in any
   order, converges exactly when each service it runs resolves to another namespace there,
   reported another namespace than the one wanted, or is taken over; otherwise every later
   pass redeploys it again.
   */
  lemma EnvironmentChangeConvergesIff(w: World, a: string, env: string, es: seq<Event>)
    requires a in w.agents && env != w.agents[a].env && w.agents[a].connected && ReportsOf(es, a)
    requires forall k | k in w.rows && w.rows[k].agent == a :: k.1 == w.agents[a].env
    requires var moved := ChangeEnvironment(w, a, env);
             OneAgentPerEnvironment(moved)
             && forall b, s, e | b != a && Live(moved, b, s) && Owns(moved, b, s, e) :: e == moved.agents[b].env
    ensures var moved := ChangeEnvironment(w, a, env);
            var was := w.agents[a].env;
            Convergent(Run(moved, es)) <==>
            forall s | Live(w, a, s) && Owns(w, a, s, was) ::
              || NamespaceFlips(w, a, s, env)
              || NamespaceDrift(Desired(moved, a, s).value.namespace, w.rows[(s, was)].namespace)
              || TakenOver(moved, s, was)
  {
    EnvironmentMoveIff(w, a, env);
    ReportsKeepConvergence(ChangeEnvironment(w, a, env), es, a);
  }

  // ----------------------------------------------------------------- the pass itself

  datatype Command =
    | Redeploy(agent: string, service: string, imageRef: string, buildId: nat, env: string, config: Resolved)
    | Teardown(agent: string, service: string, env: string, namespace: string)

  function CommandsFor(w: World, t: Target): seq<Command> {
    if !Dispatches(w, t) then []
    else
      var redeploy := Redeploy(t.agent, t.service, w.builds[t.service].imageRef, w.builds[t.service].id,
                               w.agents[t.agent].env, Desired(w, t.agent, t.service).value);
      if Pops(w, t) then
        [Teardown(t.agent, t.service, t.current.value.0, t.current.value.1.namespace), redeploy]
      else [redeploy]
  }

  function AllCommands(w: World, ts: seq<Target>): seq<Command> {
    if ts == [] then [] else AllCommands(w, ts[..|ts| - 1]) + CommandsFor(w, ts[|ts| - 1])
  }

  function Visits(ts: seq<Target>): seq<Event> {
    seq(|ts|, i requires 0 <= i < |ts| => Visited(ts[i]))
  }

  function CountDispatched(w: World, ts: seq<Target>): nat {
    if ts == [] then 0 else CountDispatched(w, ts[..|ts| - 1]) + if Dispatches(w, ts[|ts| - 1]) then 1 else 0
  }

  function CountSkipped(w: World, ts: seq<Target>): nat {
    if ts == [] then 0
    else CountSkipped(w, ts[..|ts| - 1]) + if Live(w, ts[|ts| - 1].agent, ts[|ts| - 1].service) then 0 else 1
  }

  /** One more target of the pass. */
  lemma PassNext(w: World, ts: seq<Target>, k: nat)
    requires k < |ts|
    ensures Run(w, Visits(ts[..k + 1])) == Visit(Run(w, Visits(ts[..k])), ts[k])
    ensures AllCommands(w, ts[..k + 1]) == AllCommands(w, ts[..k]) + CommandsFor(w, ts[k])
    ensures CountDispatched(w, ts[..k + 1]) == CountDispatched(w, ts[..k]) + if Dispatches(w, ts[k]) then 1 else 0
    ensures CountSkipped(w, ts[..k + 1])
            == CountSkipped(w, ts[..k]) + if Live(w, ts[k].agent, ts[k].service) then 0 else 1
  {
    assert ts[..k + 1][..k] == ts[..k];
    assert Visits(ts[..k + 1])[..k] == Visits(ts[..k]);
  }

  /**
   What a pass sends for a target, read off the tables. Nothing unless the pair is bound, its
   agent connected and its pipeline found in the latest build; then a teardown of the row's
   namespace before a redeploy where both namespaces are known and differ, and otherwise a
   redeploy unless the row has the image, the build and the environment.
   */
  lemma CommandsMean(w: World, t: Target)
    ensures var a, s := t.agent, t.service;
            var known := (a, s) in w.bindings && a in w.agents && s in w.services && s in w.builds;
            if !known || !w.agents[a].connected || SelectPipeline(w.builds[s].parsed, w.services[s]).None? then
              CommandsFor(w, t) == []
            else
              var env, build := w.agents[a].env, w.builds[s];
              var config := ResolveEnvironment(SelectPipeline(build.parsed, w.services[s]).value, env);
              var redeploy := Redeploy(a, s, build.imageRef, build.id, env, config);
              match t.current
              case None => CommandsFor(w, t) == [redeploy]
              case Some((here, row)) =>
                if config.namespace != "" && row.namespace != "" && row.namespace != config.namespace then
                  CommandsFor(w, t) == [Teardown(a, s, here, row.namespace), redeploy]
                else if row.imageRef == Some(build.imageRef) && row.buildId == Some(build.id) && here == env then
                  CommandsFor(w, t) == []
                else
                  CommandsFor(w, t) == [redeploy]
  {
  }

  /** With the teardown go all rows the agent has for the service, and no other visit changes a row. */
  lemma VisitMeans(w: World, t: Target, k: (string, string))
    ensures var v := Visit(w, t);
            && SameFleet(w, v)
            && (k in v.rows
                <==> k in w.rows && !(|CommandsFor(w, t)| == 2 && k.0 == t.service && w.rows[k].agent == t.agent))
            && (k in v.rows ==> v.rows[k] == w.rows[k])
  {
  }

  /** A new build, by its id or its image, is dispatched from a quiet world, for every row of the pair. */
  lemma NewBuildIsDispatched(w: World, a: string, s: string, b: Build)
    requires Quiet(w) && Live(w, a, s) && (b.id != w.builds[s].id || b.imageRef != w.builds[s].imageRef)
    requires SelectPipeline(b.parsed, w.services[s]).Some?
    ensures var v := w.(builds := w.builds[s := b]);
            var config := ResolveEnvironment(SelectPipeline(b.parsed, w.services[s]).value, w.agents[a].env);
            var redeploy := Redeploy(a, s, b.imageRef, b.id, w.agents[a].env, config);
            && (exists t :: IsTarget(v, t) && t.agent == a && t.service == s)
            && forall t | IsTarget(v, t) && t.agent == a && t.service == s :: redeploy in CommandsFor(v, t)
  {
    var v := w.(builds := w.builds[s := b]);
    assert !DispatchedPair(w, a, s);
    LeftAloneIff(w, a, s);
    var env :| Owns(w, a, s, env);
    assert IsTarget(v, Target(a, s, Some((env, v.rows[(s, env)]))));
    forall t | IsTarget(v, t) && t.agent == a && t.service == s
      ensures Dispatches(v, t)
    {
      assert Owns(v, a, s, env);
      if t.current.Some? {
        assert Current(w, a, s, t.current.value.0);
      }
    }
  }

  lemma Regroup(a: seq<Command>, b: seq<Command>, c: seq<Command>)
    ensures a + (b + c) == a + b + c
  {
  }

  /** The places of the listed targets that get a command, and of those whose pair is not ready for one. */
  function Served(w: World, ts: seq<Target>): set<nat> {
    set k | 0 <= k < |ts| && GetsCommand(w, ts[k])
  }

  predicate GetsCommand(w: World, t: Target) {
    CommandsFor(w, t) != []
  }

  lemma ServedNext(w: World, ts: seq<Target>, n: nat)
    requires |ts| == n + 1
    ensures |Served(w, ts)| == |Served(w, ts[..n])| + if Dispatches(w, ts[n]) then 1 else 0
  {
    assert GetsCommand(w, ts[n]) <==> Dispatches(w, ts[n]);
    assert forall k | 0 <= k < n :: ts[..n][k] == ts[k];
    assert Served(w, ts) == Served(w, ts[..n]) + if GetsCommand(w, ts[n]) then {n} else {};
  }

  function Unready(w: World, ts: seq<Target>): set<nat> {
    set k | 0 <= k < |ts| && !Live(w, ts[k].agent, ts[k].service)
  }

  lemma {:induction false} DispatchedMeans(w: World, ts: seq<Target>)
    ensures CountDispatched(w, ts) == |Served(w, ts)|
  {
    if ts != [] {
      var n := |ts| - 1;
      DispatchedMeans(w, ts[..n]);
      ServedNext(w, ts, n);
    }
  }

  lemma {:induction false} SkippedMeans(w: World, ts: seq<Target>)
    ensures CountSkipped(w, ts) == |Unready(w, ts)|
  {
    if ts != [] {
      var n := |ts| - 1;
      SkippedMeans(w, ts[..n]);
      assert Unready(w, ts) == Unready(w, ts[..n]) + if !Live(w, ts[n].agent, ts[n].service) then {n} else {};
    }
  }

  class Reconciler {
    const agents: map<string, Agent>
    const services: map<string, string>
    const bindings: set<(string, string)>
    const builds: map<string, Build>
    var rows: map<(string, string), Row>
    var sent: seq<Command>

    constructor (w: World)
      ensures Model() == w && sent == []
    {
      agents, services, bindings, builds, rows, sent := w.agents, w.services, w.bindings, w.builds, w.rows, [];
    }

    function Model(): World
      reads this
    {
      World(agents, services, bindings, builds, rows)
    }

    method PopRows(a: string, s: string)
      modifies this`rows
      ensures rows == WithoutRowsOf(old(rows), a, s)
    {
      rows := map k | k in rows && !(k.0 == s && rows[k].agent == a) :: rows[k];
    }

    /** The agents' reports. */
    method UpsertStatus(a: string, s: string, env: string, namespace: string, imageRef: string, buildId: nat)
      modifies this`rows
      ensures rows == old(rows)[(s, env) := Row(a, namespace, Some(imageRef), Some(buildId))]
    {
      rows := rows[(s, env) := Row(a, namespace, Some(imageRef), Some(buildId))];
    }

    method VisitTarget(t: Target) returns (live: bool, dispatched: bool)
      modifies this
      ensures Model() == Visit(old(Model()), t)
      ensures sent == old(sent) + CommandsFor(old(Model()), t)
      ensures live <==> Live(old(Model()), t.agent, t.service)
      ensures dispatched <==> Dispatches(old(Model()), t)
    {
      live, dispatched := Live(Model(), t.agent, t.service), false;
      if live && Drifts(Model(), t) {
        var desired := Desired(Model(), t.agent, t.service).value;
        var redeploy := Redeploy(t.agent, t.service, builds[t.service].imageRef, builds[t.service].id,
                                 agents[t.agent].env, desired);
        if t.current.Some? && NamespaceDrift(desired.namespace, t.current.value.1.namespace) {
          PopRows(t.agent, t.service);
          sent := sent + [Teardown(t.agent, t.service, t.current.value.0, t.current.value.1.namespace)];
        }
        sent := sent + [redeploy];
        dispatched := true;
      }
    }

    /** One pass over the listed targets, when no report arrives meanwhile and every enqueue is accepted. */
    method ReconcileAll(targets: seq<Target>) returns (checked: nat, redeployed: nat, skipped: nat)
      modifies this
      ensures Model() == Run(old(Model()), Visits(targets))
      ensures sent == old(sent) + AllCommands(old(Model()), targets)
      ensures checked == |targets|
      ensures redeployed == |Served(old(Model()), targets)|
      ensures skipped == |Unready(old(Model()), targets)|
    {
      ghost var start := Model();
      checked, redeployed, skipped := 0, 0, 0;
      assert Visits(targets[..0]) == [];
      for k := 0 to |targets|
        invariant SameFleet(start, Model())
        invariant Model() == Run(start, Visits(targets[..k]))
        invariant sent == old(sent) + AllCommands(start, targets[..k])
        invariant checked == k
        invariant redeployed == CountDispatched(start, targets[..k])
        invariant skipped == CountSkipped(start, targets[..k])
      {
        var t := targets[k];
        PassNext(start, targets, k);
        SameFleetSameChoice(start, Model(), t);
        checked := checked + 1;
        var live, dispatched := VisitTarget(t);
        Regroup(old(sent), AllCommands(start, targets[..k]), CommandsFor(start, t));
        if !live {
          skipped := skipped + 1;
        }
        if dispatched {
          redeployed := redeployed + 1;
        }
      }
      assert targets[..|targets|] == targets;
      DispatchedMeans(start, targets);
      SkippedMeans(start, targets);
    }
  }

  lemma SameFleetSameChoice(w: World, v: World, t: Target)
    requires SameFleet(w, v)
    ensures CommandsFor(v, t) == CommandsFor(w, t) && Dispatches(v, t) == Dispatches(w, t)
    ensures Live(v, t.agent, t.service) == Live(w, t.agent, t.service)
  {
  }
}
