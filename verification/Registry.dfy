/** What each loader does to the registry, as functions on values; and what follows for runs of loads. */
module Registry {
  import opened Wrappers
  import opened Strings
  import opened ClusterNames
  import opened Clusters

  type View = map<string, ClusterValue>

  /** A kubeconfig context: whether a client can be configured for it, and how. */
  datatype Context = Valid(namespace: string, config: RestConfig) | Invalid

  /** Loading the kubeconfig: no file, an error, or contexts and the name of the current one. */
  datatype KubeConfig = Missing | Broken | Contexts(contexts: map<string, Context>, current: string)

  /** The in-cluster files: no token, a token without usable roots, or a configuration. */
  datatype Environment = NoToken | BadRoots | InCluster(namespace: string, config: RestConfig)

  /** A cluster the GKE API lists. */
  datatype GkeCluster = GkeCluster(location: string, name: string, config: RestConfig)

  /** Positive overrides replace the client's rate limits. */
  function Limited(c: RestConfig, qps: real, burst: int): RestConfig {
    RestConfig(c.source, if qps > 0.0 then qps else c.qps, if burst > 0 then burst else c.burst)
  }

  function ContextValue(k: string, c: Context, qps: real, burst: int): ClusterValue
    requires c.Valid?
  {
    ClusterValue(k, c.namespace, Limited(c.config, qps, burst))
  }

  function KubeValues(f: KubeConfig, qps: real, burst: int): View {
    if !f.Contexts? then map[] else
    map k | k in f.contexts && f.contexts[k].Valid? :: ContextValue(k, f.contexts[k], qps, burst)
  }

  predicate HasCurrent(f: KubeConfig) {
    f.Contexts? && f.current in f.contexts && f.contexts[f.current].Valid?
  }

  /** Loading the contexts one by one, in a given order, into a registry and a default. */
  function LoadInOrder(v: View, d: Option<ClusterValue>, f: KubeConfig, qps: real, burst: int, order: seq<string>)
    : (View, Option<ClusterValue>)
    requires f.Contexts? && forall k :: k in order ==> k in f.contexts
  {
    if order == [] then (v, d) else
    var (u, e) := LoadInOrder(v, d, f, qps, burst, order[..|order| - 1]);
    var k := order[|order| - 1];
    if f.contexts[k].Invalid? then (u, e) else
    var c := ContextValue(k, f.contexts[k], qps, burst);
    (u[k := c], if e == None && k == f.current then Some(c) else e)
  }

  /** After any of the contexts, in any order, those that were turned up are loaded, and nothing else. */
  lemma {:induction false} LoadedSoFar(v: View, d: Option<ClusterValue>, f: KubeConfig, qps: real, burst: int,
                                       order: seq<string>, k: string)
    requires f.Contexts? && forall k :: k in order ==> k in f.contexts
    ensures var (u, e) := LoadInOrder(v, d, f, qps, burst, order);
            && (k in u <==> k in v || (k in order && f.contexts[k].Valid?))
            && (k in u ==> u[k] == if k in order && f.contexts[k].Valid?
                                   then ContextValue(k, f.contexts[k], qps, burst) else v[k])
            && e == (if d == None && f.current in order && f.contexts[f.current].Valid?
                     then Some(ContextValue(f.current, f.contexts[f.current], qps, burst)) else d)
  {
    if order != [] {
      var pre := order[..|order| - 1];
      assert order == pre + [order[|order| - 1]];
      LoadedSoFar(v, d, f, qps, burst, pre, k);
    }
  }

  /** Every order of the contexts ends in the same registry and the same default. */
  lemma OrderIsIrrelevant(v: View, d: Option<ClusterValue>, f: KubeConfig, qps: real, burst: int, order: seq<string>)
    requires f.Contexts? && forall k :: k in order <==> k in f.contexts
    ensures LoadInOrder(v, d, f, qps, burst, order)
         == (v + KubeValues(f, qps, burst),
             if d == None && HasCurrent(f)
             then Some(ContextValue(f.current, f.contexts[f.current], qps, burst)) else d)
  {
    LoadedSoFar(v, d, f, qps, burst, order, f.current);
    var u, w := LoadInOrder(v, d, f, qps, burst, order).0, v + KubeValues(f, qps, burst);
    forall k ensures (k in u <==> k in w) && (k in u ==> u[k] == w[k]) {
      LoadedSoFar(v, d, f, qps, burst, order, k);
    }
    assert u.Keys == w.Keys;
    assert u == w;
  }

  const IN_CLUSTER := "incluster"

  function InClusterValue(env: Environment): ClusterValue
    requires env.InCluster?
  {
    ClusterValue(IN_CLUSTER, env.namespace, env.config)
  }

  function InClusterMerge(v: View, env: Environment): View {
    if env.InCluster? then v[IN_CLUSTER := InClusterValue(env)] else v
  }

  /** The final fix of init for the default cluster. */
  function Defaulted(v: ClusterValue): ClusterValue {
    v.(namespace := if v.namespace == "" then "default" else v.namespace,
       name := if v.name == "" then "default" else v.name)
  }

  /** The registry once the files are loaded. */
  function LoadedView(v: View, f: KubeConfig, env: Environment, qps: real, burst: int): View {
    if f.Broken? then v else InClusterMerge(v + KubeValues(f, qps, burst), env)
  }

  /** The key of the entry init makes the default, when none was set before. */
  function InitKey(f: KubeConfig, env: Environment): Option<string> {
    if f.Broken? then None
    else if HasCurrent(f) then Some(f.current)
    else if env.InCluster? then Some(IN_CLUSTER)
    else None
  }

  function InitValue(f: KubeConfig, env: Environment, qps: real, burst: int): ClusterValue
    requires InitKey(f, env).Some?
  {
    if HasCurrent(f) then ContextValue(f.current, f.contexts[f.current], qps, burst) else InClusterValue(env)
  }

  /** The pod's own cluster has taken the key of the current context. */
  predicate Displaced(f: KubeConfig, env: Environment) {
    HasCurrent(f) && f.current == IN_CLUSTER && env.InCluster?
  }

  /** The registry after init, when no default was set before; the default is fixed where it is. */
  function InitView(v: View, f: KubeConfig, env: Environment, qps: real, burst: int): View {
    var loaded := LoadedView(v, f, env, qps, burst);
    match InitKey(f, env)
    case Some(k) => if Displaced(f, env) then loaded else loaded[k := Defaulted(loaded[k])]
    case None => loaded
  }

  /** The default cluster init chooses. */
  function InitDefault(f: KubeConfig, env: Environment, qps: real, burst: int): Option<ClusterValue> {
    if InitKey(f, env) == None then None else Some(Defaulted(InitValue(f, env, qps, burst)))
  }

  /** Adds clusters under their names, keeping whatever a name already stands for. */
  function FirstWins(v: View, cs: seq<ClusterValue>): View {
    if cs == [] then v else
    var m := FirstWins(v, cs[..|cs| - 1]);
    var c := cs[|cs| - 1];
    if c.name in m then m else m[c.name := c]
  }

  /** Adds clusters under their names, replacing whatever a name stands for. */
  function LastWins(v: View, cs: seq<ClusterValue>): View {
    if cs == [] then v else LastWins(v, cs[..|cs| - 1])[cs[|cs| - 1].name := cs[|cs| - 1]]
  }

  lemma FirstWinsNext(v: View, cs: seq<ClusterValue>, i: nat)
    requires i < |cs|
    ensures var m := FirstWins(v, cs[..i]);
            FirstWins(v, cs[..i + 1]) == if cs[i].name in m then m else m[cs[i].name := cs[i]]
  {
    assert cs[..i + 1][..i] == cs[..i];
  }

  lemma LastWinsNext(v: View, cs: seq<ClusterValue>, i: nat)
    requires i < |cs|
    ensures LastWins(v, cs[..i + 1]) == LastWins(v, cs[..i])[cs[i].name := cs[i]]
  {
    assert cs[..i + 1][..i] == cs[..i];
  }

  function GkeValue(project: string, namespace: string, c: GkeCluster): ClusterValue {
    ClusterValue(GkeName(project, c.location, c.name), namespace, c.config)
  }

  function GkeValues(project: string, namespace: string, cs: seq<GkeCluster>): (vs: seq<ClusterValue>)
    ensures |vs| == |cs| && forall i :: 0 <= i < |cs| ==> vs[i] == GkeValue(project, namespace, cs[i])
  {
    if cs == [] then [] else
    GkeValues(project, namespace, cs[..|cs| - 1]) + [GkeValue(project, namespace, cs[|cs| - 1])]
  }

  const GATEWAY := "https://connectgateway.googleapis.com/v1/projects/"

  function HubValue(project: string, number: string, membership: string): ClusterValue {
    ClusterValue(HubName(project, membership), "",
                 RestConfig(GATEWAY + number + "/locations/global/gkeMemberships/" + membership, 0.0, 0))
  }

  lemma HubValueText(project: string, number: string, membership: string)
    ensures HubValue(project, number, membership).name == "connectgateway_" + project + "_global_" + membership
    ensures HubValue(project, number, membership).config.source
         == "https://connectgateway.googleapis.com/v1/projects/" + number + "/locations/global/gkeMemberships/"
            + membership
  {
  }

  /** The last part of a membership's resource name. */
  function Membership(resource: string): string {
    var parts := Split(resource, '/');
    parts[|parts| - 1]
  }

  /** `m` is what follows the last slash of the resource name, or all of it. */
  ghost predicate IsLastPart(resource: string, m: string) {
    '/' !in m && (resource == m || exists parent :: resource == parent + "/" + m)
  }

  lemma MembershipIsLastPart(resource: string, m: string)
    requires IsLastPart(resource, m)
    ensures Membership(resource) == m
  {
    SplitPlain(m, '/');
    if parent :| resource == parent + "/" + m {
      assert ['/'] == "/";
      SplitConcat(parent, m, '/');
    }
  }

  function HubValues(project: string, number: string, ms: seq<string>): (vs: seq<ClusterValue>)
    ensures |vs| == |ms| && forall i :: 0 <= i < |ms| ==> vs[i] == HubValue(project, number, Membership(ms[i]))
  {
    if ms == [] then [] else
    HubValues(project, number, ms[..|ms| - 1]) + [HubValue(project, number, Membership(ms[|ms| - 1]))]
  }

  ghost predicate Named(cs: seq<ClusterValue>, i: int, k: string) { 0 <= i < |cs| && cs[i].name == k }

  /** First-wins: an entry that was there stays; otherwise the first cluster of the name counts. */
  lemma {:induction false} FirstWinsIff(v: View, cs: seq<ClusterValue>, k: string, c: ClusterValue)
    ensures (k in FirstWins(v, cs) && FirstWins(v, cs)[k] == c)
       <==> (k in v && v[k] == c)
            || (k !in v && exists i :: Named(cs, i, k) && cs[i] == c && forall j :: 0 <= j < i ==> !Named(cs, j, k))
  {
    if cs != [] {
      var n := |cs| - 1;
      var pre := cs[..n];
      FirstWinsIff(v, pre, k, c);
      forall i | 0 <= i < n ensures Named(pre, i, k) <==> Named(cs, i, k) {}
      FirstWinsKeys(v, pre, k);
      if Named(cs, n, k) && k !in v && k !in FirstWins(v, pre) && cs[n] == c {
        assert forall j :: 0 <= j < n ==> !Named(cs, j, k);
      }
    }
  }

  lemma {:induction false} FirstWinsKeys(v: View, cs: seq<ClusterValue>, k: string)
    ensures k in FirstWins(v, cs) <==> k in v || exists i :: Named(cs, i, k)
  {
    if cs != [] {
      var n := |cs| - 1;
      FirstWinsKeys(v, cs[..n], k);
      forall i | 0 <= i < n ensures Named(cs[..n], i, k) <==> Named(cs, i, k) {}
      assert cs[n].name == k ==> Named(cs, n, k);
    }
  }

  /** Last-wins: the last cluster of the name counts; without one the entry stays. */
  lemma {:induction false} LastWinsIff(v: View, cs: seq<ClusterValue>, k: string, c: ClusterValue)
    ensures (k in LastWins(v, cs) && LastWins(v, cs)[k] == c)
       <==> (exists i :: Named(cs, i, k) && cs[i] == c && forall j :: i < j < |cs| ==> !Named(cs, j, k))
            || (k in v && v[k] == c && forall j :: 0 <= j < |cs| ==> !Named(cs, j, k))
  {
    if cs != [] {
      var n := |cs| - 1;
      LastWinsIff(v, cs[..n], k, c);
      forall i | 0 <= i < n ensures Named(cs[..n], i, k) <==> Named(cs, i, k) {}
      if cs[n].name == k {
        assert Named(cs, n, k);
      }
    }
  }

  lemma {:induction false} LastWinsKeys(v: View, cs: seq<ClusterValue>, k: string)
    ensures k in LastWins(v, cs) <==> k in v || exists i :: Named(cs, i, k)
  {
    if cs != [] {
      var n := |cs| - 1;
      LastWinsKeys(v, cs[..n], k);
      forall i | 0 <= i < n ensures Named(cs[..n], i, k) <==> Named(cs, i, k) {}
      assert cs[n].name == k ==> Named(cs, n, k);
    }
  }

  ghost predicate Apart(cs: seq<ClusterValue>, ds: seq<ClusterValue>) {
    forall i, j :: 0 <= i < |cs| && 0 <= j < |ds| ==> cs[i].name != ds[j].name
  }

  lemma {:induction false} FirstWinsOver(v: View, cs: seq<ClusterValue>, d: ClusterValue)
    requires forall i :: 0 <= i < |cs| ==> cs[i].name != d.name
    ensures FirstWins(v[d.name := d], cs) == FirstWins(v, cs)[d.name := d]
  {
    if cs != [] {
      var c, u := cs[|cs| - 1], FirstWins(v, cs[..|cs| - 1]);
      FirstWinsOver(v, cs[..|cs| - 1], d);
      assert u[d.name := d][c.name := c] == u[c.name := c][d.name := d];
    }
  }

  /** Merges of clusters with different names commute. */
  lemma {:induction false} MergesCommute(v: View, cs: seq<ClusterValue>, ds: seq<ClusterValue>)
    requires Apart(cs, ds)
    ensures FirstWins(LastWins(v, ds), cs) == LastWins(FirstWins(v, cs), ds)
  {
    if ds != [] {
      MergesCommute(v, cs, ds[..|ds| - 1]);
      FirstWinsOver(LastWins(v, ds[..|ds| - 1]), cs, ds[|ds| - 1]);
    }
  }

  lemma GkeAndHubApart(p: string, ns: string, cs: seq<GkeCluster>, q: string, num: string, ms: seq<string>)
    ensures Apart(GkeValues(p, ns, cs), HubValues(q, num, ms))
  {
    forall i, j | 0 <= i < |cs| && 0 <= j < |ms|
      ensures GkeValues(p, ns, cs)[i].name != HubValues(q, num, ms)[j].name
    {
      NamesDisjoint(p, cs[i].location, cs[i].name, q, Membership(ms[j]));
    }
  }

  /** A GKE load and a hub load can be exchanged. */
  lemma GkeAndHubCommute(v: View, p: string, ns: string, cs: seq<GkeCluster>, q: string, num: string, ms: seq<string>)
    ensures FirstWins(LastWins(v, HubValues(q, num, ms)), GkeValues(p, ns, cs))
         == LastWins(FirstWins(v, GkeValues(p, ns, cs)), HubValues(q, num, ms))
  {
    GkeAndHubApart(p, ns, cs, q, num, ms);
    MergesCommute(v, GkeValues(p, ns, cs), HubValues(q, num, ms));
  }

  /** A hub load never displaces a GKE-discovered cluster. */
  lemma HubLeavesGkeNames(v: View, q: string, num: string, ms: seq<string>, p: string, l: string, n: string)
    requires GkeName(p, l, n) in v
    ensures GkeName(p, l, n) in LastWins(v, HubValues(q, num, ms))
    ensures LastWins(v, HubValues(q, num, ms))[GkeName(p, l, n)] == v[GkeName(p, l, n)]
  {
    var k, hubs := GkeName(p, l, n), HubValues(q, num, ms);
    forall j | 0 <= j < |ms| ensures !Named(hubs, j, k) {
      NamesDisjoint(p, l, n, q, Membership(ms[j]));
    }
    LastWinsIff(v, hubs, k, v[k]);
  }

  // ----- Runs of loads -----

  datatype Load =
    | LoadKube(file: KubeConfig)
    | LoadInCluster(env: Environment)
    | LoadGke(project: string, namespace: string, clusters: seq<GkeCluster>)
    | LoadHub(hubProject: string, number: string, memberships: seq<string>)

  function Loaded(v: View, load: Load, qps: real, burst: int): View {
    match load
    case LoadKube(f) => v + KubeValues(f, qps, burst)
    case LoadInCluster(env) => InClusterMerge(v, env)
    case LoadGke(p, ns, cs) => FirstWins(v, GkeValues(p, ns, cs))
    case LoadHub(p, num, ms) => LastWins(v, HubValues(p, num, ms))
  }

  function RunLoads(v: View, loads: seq<Load>, qps: real, burst: int): View {
    if loads == [] then v
    else Loaded(RunLoads(v, loads[..|loads| - 1], qps, burst), loads[|loads| - 1], qps, burst)
  }

  ghost predicate WellKeyed(v: View) { forall k :: k in v ==> v[k].name == k }

  lemma {:induction false} FirstWinsKeeps(v: View, cs: seq<ClusterValue>)
    ensures WellKeyed(v) ==> WellKeyed(FirstWins(v, cs))
    ensures forall k :: k in v ==> k in FirstWins(v, cs) && FirstWins(v, cs)[k] == v[k]
  {
    if cs != [] { FirstWinsKeeps(v, cs[..|cs| - 1]); }
  }

  lemma {:induction false} LastWinsKeeps(v: View, cs: seq<ClusterValue>)
    ensures WellKeyed(v) ==> WellKeyed(LastWins(v, cs))
    ensures v.Keys <= LastWins(v, cs).Keys
  {
    if cs != [] { LastWinsKeeps(v, cs[..|cs| - 1]); }
  }

  /** A GKE load never changes the value at a key that was there. */
  lemma GkeLoadKeepsValues(v: View, load: Load, qps: real, burst: int, k: string)
    requires load.LoadGke? && k in v
    ensures k in Loaded(v, load, qps, burst) && Loaded(v, load, qps, burst)[k] == v[k]
  {
    FirstWinsKeeps(v, GkeValues(load.project, load.namespace, load.clusters));
  }

  /** Over every run of loads, each key holds the cluster of that name and no key is ever removed. */
  lemma {:induction false} LoadsKeepKeys(v: View, loads: seq<Load>, qps: real, burst: int)
    ensures WellKeyed(v) ==> WellKeyed(RunLoads(v, loads, qps, burst))
    ensures v.Keys <= RunLoads(v, loads, qps, burst).Keys
  {
    if loads != [] {
      var pre := loads[..|loads| - 1];
      LoadsKeepKeys(v, pre, qps, burst);
      var u := RunLoads(v, pre, qps, burst);
      match loads[|loads| - 1]
      case LoadGke(p, ns, cs) => FirstWinsKeeps(u, GkeValues(p, ns, cs));
      case LoadHub(p, num, ms) => LastWinsKeeps(u, HubValues(p, num, ms));
      case _ =>
    }
  }

  /** The fix of init renames a cluster under its key exactly when the current context has no name. */
  lemma InitWellKeyedIff(v: View, f: KubeConfig, env: Environment, qps: real, burst: int)
    requires WellKeyed(v)
    ensures WellKeyed(InitView(v, f, env, qps, burst)) <==> !(HasCurrent(f) && f.current == "")
  {
    if HasCurrent(f) && f.current == "" {
      assert InitView(v, f, env, qps, burst)[""].name == "default";
    }
  }
}
