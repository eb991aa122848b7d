/** Discovering clusters through the GKE and hub APIs, and choosing a default among them. */
module Gke {
  import opened Wrappers
  import opened Strings
  import opened ClusterNames
  import opened Clusters
  import opened Registry
  import opened K8SSet

  /** What listing memberships yields before the end of the list, or before an error. */
  datatype Memberships = NoClient | Listed(names: seq<string>, failed: bool)

  /** The configured mesh address; it has to be a URL that parses. */
  datatype MeshAddr = Unset | Url(scheme: string, host: string, path: string)

  /** The address selects one cluster by its full path. */
  predicate IsExplicit(a: MeshAddr) {
    a.Url? && (a.scheme == "gke" || a.host == "container.googleapis.com") && |a.path| > 1
  }

  function WantedName(a: MeshAddr): string {
    if a.Url? && a.scheme == "cluster" then a.host else "istio"
  }

  /** Which addresses select a cluster by path, and which name discovery looks for. */
  lemma AddressForms(scheme: string, host: string, path: string)
    ensures scheme == "gke" || host == "container.googleapis.com" ==>
              (IsExplicit(Url(scheme, host, path)) <==> |path| > 1)
    ensures scheme != "gke" && host != "container.googleapis.com" ==> !IsExplicit(Url(scheme, host, path))
    ensures WantedName(Url("cluster", host, path)) == host
    ensures scheme != "cluster" ==> WantedName(Url(scheme, host, path)) == "istio"
    ensures !IsExplicit(Unset) && WantedName(Unset) == "istio"
  {
  }

  /** The cached fields of a cluster once it is asked for them, if it can be asked. */
  ghost function Full(c: K8SCluster): Cache
    reads c
  {
    if Parses(c.name) then Filled(c.name, c.Cached()) else c.Cached()
  }

  predicate InRegion(location: string, region: string) { region == "" || region <= location }

  /** How well a cluster of a name and location fits: region and name, name, region, any. */
  function TierOf(name: string, location: string, region: string, wanted: string): nat {
    var named := wanted != "" && Contains(name, wanted);
    if named && InRegion(location, region) then 0
    else if named then 1
    else if InRegion(location, region) then 2
    else 3
  }

  ghost function Tier(c: K8SCluster, region: string, wanted: string): nat
    reads c
  {
    TierOf(c.name, Full(c).location, region, wanted)
  }

  /** Every registered cluster has a name that can be parsed. */
  ghost predicate NamesParse(v: View) { forall k :: k in v ==> Parses(v[k].name) }

  lemma {:induction false} FirstWinsParse(v: View, cs: seq<ClusterValue>)
    requires NamesParse(v) && forall i :: 0 <= i < |cs| ==> Parses(cs[i].name)
    ensures NamesParse(FirstWins(v, cs))
  {
    if cs != [] { FirstWinsParse(v, cs[..|cs| - 1]); }
  }

  lemma {:induction false} LastWinsParse(v: View, cs: seq<ClusterValue>)
    requires NamesParse(v) && forall i :: 0 <= i < |cs| ==> Parses(cs[i].name)
    ensures NamesParse(LastWins(v, cs))
  {
    if cs != [] { LastWinsParse(v, cs[..|cs| - 1]); }
  }

  /** `cl` is a cluster that no other fits better; there is none exactly when there are no clusters. */
  ghost predicate IsBest(cl: K8SCluster?, clusters: set<K8SCluster>, region: string, wanted: string)
    reads clusters
  {
    && (cl == null <==> clusters == {})
    && (cl != null ==>
          cl in clusters
          && forall c :: c in clusters ==> Tier(cl, region, wanted) <= Tier(c, region, wanted))
  }

  /** A cluster at the start of a search: its value, its cache, and its cache once filled. */
  datatype Snapshot = Snapshot(value: ClusterValue, cache: Cache, full: Cache) {
    predicate Fits(region: string, wanted: string, byRegion: bool, byName: bool) {
      (byRegion ==> InRegion(full.location, region)) && (byName ==> Contains(value.name, wanted))
    }

    function Tier(region: string, wanted: string): nat { TierOf(value.name, full.location, region, wanted) }
  }

  /** The cache is as it was or filled from the cluster's own name; nothing else has changed. */
  ghost predicate OnlyFilled(c: K8SCluster, s: Snapshot)
    reads c
  {
    && c.Value() == s.value && Full(c) == s.full
    && (c.Cached() == s.cache || c.Cached() == s.full)
  }

  ghost predicate AllOnlyFilled(snapshots: map<K8SCluster, Snapshot>)
    reads snapshots.Keys
  {
    forall c :: c in snapshots ==> OnlyFilled(c, snapshots[c])
  }

  ghost function Snapshots(clusters: set<K8SCluster>): (r: map<K8SCluster, Snapshot>)
    reads clusters
    ensures r.Keys == clusters && AllOnlyFilled(r)
  {
    map c | c in clusters :: Snapshot(c.Value(), c.Cached(), Full(c))
  }

  ghost predicate AllParse(snapshots: map<K8SCluster, Snapshot>) {
    forall c :: c in snapshots ==> Parses(snapshots[c].value.name)
  }

  lemma FilledTwice(name: string, c: Cache)
    requires Parses(name)
    ensures Filled(name, Filled(name, c)) == Filled(name, c)
  {
  }

  // What a search is for, in terms of names and locations.

  /** The location is known and begins with the region, or the printed name says so. */
  ghost predicate LiesIn(c: K8SCluster, region: string)
    reads c
  {
    || region <= c.location
    || (c.location == "" && exists p, l, n :: IsGkeName(c.name, p, l, n) && region <= l)
  }

  ghost function LyingIn(clusters: set<K8SCluster>, region: string): set<K8SCluster>
    reads clusters
  {
    set c | c in clusters && LiesIn(c, region)
  }

  ghost function Carrying(clusters: set<K8SCluster>, wanted: string): set<K8SCluster>
    reads clusters
  {
    set c | c in clusters && wanted != "" && exists i :: 0 <= i <= |c.name| && wanted <= c.name[i..]
  }

  /** A cluster with the name in the region if there is one, else one with the name, else one in the region. */
  ghost predicate Picks(cl: K8SCluster?, inRegion: set<K8SCluster>, named: set<K8SCluster>, region: string)
    reads cl
  {
    && (named != {} ==> cl in named)
    && (inRegion * named != {} ==> cl != null && region <= cl.location)
    && (named == {} && inRegion != {} ==> cl != null && region <= cl.location)
  }

  lemma LyingInFits(snapshots: map<K8SCluster, Snapshot>, region: string, c: K8SCluster)
    requires AllOnlyFilled(snapshots) && c in LyingIn(snapshots.Keys, region)
    ensures region <= snapshots[c].full.location
  {
    assert OnlyFilled(c, snapshots[c]);
    if p, l, n :| c.location == "" && IsGkeName(c.name, p, l, n) && region <= l {
      GkeNameIsParsed(c.name, p, l, n);
    }
  }

  lemma CarryingIff(snapshots: map<K8SCluster, Snapshot>, wanted: string, c: K8SCluster)
    requires AllOnlyFilled(snapshots) && c in snapshots
    ensures c in Carrying(snapshots.Keys, wanted) <==> wanted != "" && Contains(snapshots[c].value.name, wanted)
  {
    assert OnlyFilled(c, snapshots[c]);
    ContainsIff(c.name, wanted);
  }

  /** What failing scans mean for these sets. */
  lemma NoneFitsMeans(snapshots: map<K8SCluster, Snapshot>, region: string, wanted: string)
    requires AllOnlyFilled(snapshots)
    ensures var inRegion, named := LyingIn(snapshots.Keys, region), Carrying(snapshots.Keys, wanted);
            && (NoneFits(snapshots, region, wanted, true, true) ==> inRegion * named == {})
            && (wanted == "" || NoneFits(snapshots, region, wanted, false, true) ==> named == {})
            && (NoneFits(snapshots, region, wanted, true, false) ==> inRegion == {})
  {
    forall c | c in LyingIn(snapshots.Keys, region) ensures region <= snapshots[c].full.location {
      LyingInFits(snapshots, region, c);
    }
    forall c | c in snapshots
      ensures c in Carrying(snapshots.Keys, wanted) <==> wanted != "" && Contains(snapshots[c].value.name, wanted)
    {
      CarryingIff(snapshots, wanted, c);
    }
  }

  ghost predicate NoneFits(snapshots: map<K8SCluster, Snapshot>, region: string, wanted: string,
                           byRegion: bool, byName: bool)
  {
    forall c :: c in snapshots ==> !snapshots[c].Fits(region, wanted, byRegion, byName)
  }

  /** `cl` is what the first scan that finds a cluster finds. */
  ghost predicate IsFirstFit(cl: K8SCluster?, snapshots: map<K8SCluster, Snapshot>, region: string, wanted: string) {
    if cl == null then NoneFits(snapshots, region, wanted, false, false)
    else
      && cl in snapshots
      && var s := snapshots[cl];
         || (wanted != "" && s.Fits(region, wanted, true, true))
         || (wanted != "" && s.Fits(region, wanted, false, true) && NoneFits(snapshots, region, wanted, true, true))
         || ((wanted != "" ==> NoneFits(snapshots, region, wanted, false, true))
             && (s.Fits(region, wanted, true, false) || NoneFits(snapshots, region, wanted, true, false)))
  }

  ghost predicate IsBestByValue(cl: K8SCluster?, snapshots: map<K8SCluster, Snapshot>,
                                region: string, wanted: string)
  {
    && (cl == null <==> snapshots.Keys == {})
    && (cl != null ==>
          cl in snapshots
          && forall c :: c in snapshots ==> snapshots[cl].Tier(region, wanted) <= snapshots[c].Tier(region, wanted))
  }

  lemma FirstFitIsBest(cl: K8SCluster?, snapshots: map<K8SCluster, Snapshot>, region: string, wanted: string)
    requires IsFirstFit(cl, snapshots, region, wanted)
    ensures IsBestByValue(cl, snapshots, region, wanted)
  {
    assert forall c :: c in snapshots ==> snapshots[c].Fits(region, wanted, false, false);
  }

  ghost function ValuesIn(byName: map<string, K8SCluster>, snapshots: map<K8SCluster, Snapshot>): View
    requires byName.Values <= snapshots.Keys
  {
    map k | k in byName :: snapshots[byName[k]].value
  }

  lemma ValuesAsInSnapshots(k8s: K8S, snapshots: map<K8SCluster, Snapshot>)
    requires k8s.byName.Values <= snapshots.Keys && AllOnlyFilled(snapshots)
    ensures k8s.Values() == ValuesIn(k8s.byName, snapshots)
  {
    forall k | k in k8s.byName ensures k8s.byName[k].Value() == snapshots[k8s.byName[k]].value {
      assert OnlyFilled(k8s.byName[k], snapshots[k8s.byName[k]]);
    }
  }

  lemma SnapshotsParse(k8s: K8S, snapshots: map<K8SCluster, Snapshot>)
    requires k8s.byName.Values == snapshots.Keys && AllOnlyFilled(snapshots) && NamesParse(k8s.Values())
    ensures AllParse(snapshots)
  {
    forall c | c in snapshots ensures Parses(snapshots[c].value.name) {
      var k :| k in k8s.byName && k8s.byName[k] == c;
      assert OnlyFilled(c, snapshots[c]) && Parses(k8s.Values()[k].name);
    }
  }

  /** A cluster's tier is that of its snapshot, in every state of the search. */
  lemma BestByValue(cl: K8SCluster?, snapshots: map<K8SCluster, Snapshot>, region: string, wanted: string)
    requires AllOnlyFilled(snapshots) && IsBestByValue(cl, snapshots, region, wanted)
    ensures IsBest(cl, snapshots.Keys, region, wanted)
  {
    forall c | c in snapshots ensures Tier(c, region, wanted) == snapshots[c].Tier(region, wanted) {
      assert OnlyFilled(c, snapshots[c]);
    }
  }

  ghost predicate Show(clusters: seq<K8SCluster>, values: seq<ClusterValue>)
    reads clusters
  {
    && |clusters| == |values|
    && forall i :: 0 <= i < |clusters| ==>
         clusters[i].Value() == values[i] && clusters[i].Cached() == Cache("", "", "")
  }

  lemma ShowNext(clusters: seq<K8SCluster>, values: seq<ClusterValue>, i: nat, c: K8SCluster)
    requires i < |values| && Show(clusters, values[..i])
    requires c.Value() == values[i] && c.Cached() == Cache("", "", "")
    ensures Show(clusters + [c], values[..i + 1])
  {
    assert values[..i + 1] == values[..i] + [values[i]];
  }

  class GKE {
    const k8s: K8S
    const projectId: string
    const numericProjectId: string
    const namespace: string

    constructor (k8s: K8S, projectId: string, numericProjectId: string, namespace: string)
      ensures this.k8s == k8s && this.projectId == projectId
      ensures this.numericProjectId == numericProjectId && this.namespace == namespace
    {
      this.k8s, this.projectId := k8s, projectId;
      this.numericProjectId, this.namespace := numericProjectId, namespace;
    }

    /** Whether a scan stops at `c`: the region is asked first, if at all, then the name. */
    method Fits(c: K8SCluster, region: string, wanted: string, byRegion: bool, byName: bool, ghost s: Snapshot)
      returns (yes: bool)
      requires OnlyFilled(c, s)
      requires byRegion && region != "" ==> Parses(s.value.name)
      modifies c`project, c`location, c`shortName
      ensures OnlyFilled(c, s)
      ensures yes <==> s.Fits(region, wanted, byRegion, byName)
      ensures yes && byRegion ==> region <= c.location
    {
      if Parses(c.name) {
        FilledTwice(c.name, c.Cached());
      }
      yes := true;
      if byRegion && region != "" {
        var l := c.Location();
        yes := region <= l;
      }
      if yes && byName {
        yes := Contains(c.name, wanted);
      }
    }

    /** One scan for a cluster, in the region if `byRegion` asks for it, and with the name if `byName` does. */
    method Scan(region: string, wanted: string, byRegion: bool, byName: bool,
                ghost snapshots: map<K8SCluster, Snapshot>) returns (cl: K8SCluster?)
      requires snapshots.Keys == k8s.byName.Values && AllOnlyFilled(snapshots)
      requires byRegion && region != "" ==> AllParse(snapshots)
      modifies k8s.byName.Values
      ensures AllOnlyFilled(snapshots)
      ensures if cl == null then NoneFits(snapshots, region, wanted, byRegion, byName)
              else cl in snapshots && snapshots[cl].Fits(region, wanted, byRegion, byName)
                   && (byRegion ==> region <= cl.location)
    {
      var rest := k8s.byName.Keys;
      while rest != {}
        invariant rest <= k8s.byName.Keys
        invariant AllOnlyFilled(snapshots)
        invariant forall k :: k in k8s.byName && k !in rest ==>
                    !snapshots[k8s.byName[k]].Fits(region, wanted, byRegion, byName)
        decreases rest
      {
        var k :| k in rest;
        rest := rest - {k};
        var c := k8s.byName[k];
        var fits := Fits(c, region, wanted, byRegion, byName, snapshots[c]);
        if fits {
          return c;
        }
      }
      return null;
    }

    /** Finds a cluster of the best tier, whatever the order of each scan; only a region makes it parse names. */
    method FindCluster(myRegion: string, clusterName: string) returns (cl: K8SCluster?)
      requires myRegion != "" ==> NamesParse(k8s.Values())
      modifies k8s.byName.Values
      ensures AllOnlyFilled(old(Snapshots(k8s.byName.Values)))
      ensures IsBest(cl, k8s.byName.Values, myRegion, clusterName)
      ensures Picks(cl, old(LyingIn(k8s.byName.Values, myRegion)), old(Carrying(k8s.byName.Values, clusterName)),
                    myRegion)
    {
      ghost var snapshots := Snapshots(k8s.byName.Values);
      NoneFitsMeans(snapshots, myRegion, clusterName);
      forall c | c in snapshots { CarryingIff(snapshots, clusterName, c); }
      if myRegion != "" {
        SnapshotsParse(k8s, snapshots);
      }
      cl := null;
      if clusterName != "" {
        cl := Scan(myRegion, clusterName, true, true, snapshots);
        if cl == null {
          cl := Scan(myRegion, clusterName, false, true, snapshots);
        }
      }
      if cl == null {
        cl := Scan(myRegion, clusterName, true, false, snapshots);
      }
      if cl == null {
        cl := Scan(myRegion, clusterName, false, false, snapshots);
      }
      FirstFitIsBest(cl, snapshots, myRegion, clusterName);
      BestByValue(cl, snapshots, myRegion, clusterName);
    }

    /** Every entry is the one that was there, or a new one whose name can be parsed. */
    twostate predicate OnlyAdded()
      reads this, k8s, k8s.byName.Values
    {
      && old(k8s.byName).Keys <= k8s.byName.Keys
      && forall k :: k in k8s.byName ==>
           (k in old(k8s.byName) && k8s.byName[k] == old(k8s.byName)[k])
           || (fresh(k8s.byName[k]) && Parses(k8s.byName[k].name))
    }

    /** Makes a discovered cluster and registers it, over an entry of the same name only if `replace`. */
    method Register(v: ClusterValue, replace: bool) returns (c: K8SCluster)
      requires Parses(v.name)
      modifies k8s`byName
      ensures fresh(c) && c.Value() == v && c.Cached() == Cache("", "", "")
      ensures k8s.byName == if !replace && v.name in old(k8s.byName) then old(k8s.byName)
                            else old(k8s.byName)[v.name := c]
      ensures k8s.Values() == if !replace && v.name in old(k8s.Values()) then old(k8s.Values())
                              else old(k8s.Values())[v.name := v]
    {
      c := new K8SCluster(v);
      if replace || c.name !in k8s.byName {
        k8s.byName := k8s.byName[c.name := c];
      }
    }

    /** The cluster is a listed one: its name, configuration, and what it answers when asked for its labels. */
    ghost predicate Describes(c: K8SCluster, project: string, g: GkeCluster)
      reads c
    {
      && c.name == "gke_" + project + "_" + g.location + "_" + g.name
      && c.namespace == namespace && c.restConfig == g.config
      && ('_' !in project && '_' !in g.location && '_' !in g.name ==>
            && Full(c) == Cache(project, g.location, g.name)
            && c.Shows(project, g.location, g.name))
    }

    /** The clusters are the listed ones, in order, and the registry has their names. */
    ghost predicate AreListed(clusters: seq<K8SCluster>, project: string, gs: seq<GkeCluster>)
      reads this, k8s, clusters
    {
      && |clusters| == |gs|
      && forall i :: 0 <= i < |gs| ==> Describes(clusters[i], project, gs[i]) && clusters[i].name in k8s.byName
    }

    lemma ValueIsDescribed(c: K8SCluster, project: string, g: GkeCluster)
      requires c.Value() == GkeValue(project, namespace, g) && c.Cached() == Cache("", "", "")
      ensures Describes(c, project, g)
    {
      if '_' !in project && '_' !in g.location && '_' !in g.name {
        GkeNameIsParsed(c.name, project, g.location, g.name);
      }
    }

    lemma LoadedAreListed(clusters: seq<K8SCluster>, project: string, gs: seq<GkeCluster>, v: View)
      requires Show(clusters, GkeValues(project, namespace, gs))
      requires k8s.Values() == FirstWins(v, GkeValues(project, namespace, gs))
      ensures AreListed(clusters, project, gs)
    {
      var values := GkeValues(project, namespace, gs);
      forall i | 0 <= i < |gs| ensures Describes(clusters[i], project, gs[i]) && clusters[i].name in k8s.byName {
        ValueIsDescribed(clusters[i], project, gs[i]);
        assert Named(values, i, clusters[i].name);
        FirstWinsKeys(v, values, clusters[i].name);
        assert clusters[i].name in k8s.Values();
      }
    }

    /** A membership seen through the gateway, under the last part of its resource name. */
    ghost predicate DescribesMember(c: K8SCluster, resource: string)
      reads c
    {
      && c.namespace == ""
      && forall m :: IsLastPart(resource, m) ==>
           && c.name == "connectgateway_" + projectId + "_global_" + m
           && c.restConfig.source
              == "https://connectgateway.googleapis.com/v1/projects/" + numericProjectId
                 + "/locations/global/gkeMemberships/" + m
           && ('_' !in projectId ==> Full(c) == Cache(projectId, "", ""))
    }

    ghost predicate AreMembers(clusters: seq<K8SCluster>, names: seq<string>)
      reads this, k8s, clusters
    {
      && |clusters| == |names|
      && forall i :: 0 <= i < |names| ==> DescribesMember(clusters[i], names[i]) && clusters[i].name in k8s.byName
    }

    lemma MemberIsDescribed(c: K8SCluster, resource: string)
      requires c.Value() == HubValue(projectId, numericProjectId, Membership(resource))
      requires c.Cached() == Cache("", "", "")
      ensures DescribesMember(c, resource)
    {
      var mn := Membership(resource);
      HubValueText(projectId, numericProjectId, mn);
      if '_' !in projectId { HubNameIsParsed(c.name, projectId, mn); }
      forall m | IsLastPart(resource, m) ensures m == mn { MembershipIsLastPart(resource, m); }
    }

    lemma LoadedAreMembers(clusters: seq<K8SCluster>, names: seq<string>, v: View)
      requires Show(clusters, HubValues(projectId, numericProjectId, names))
      requires k8s.Values() == LastWins(v, HubValues(projectId, numericProjectId, names))
      ensures AreMembers(clusters, names)
    {
      var values := HubValues(projectId, numericProjectId, names);
      forall i | 0 <= i < |names| ensures DescribesMember(clusters[i], names[i]) && clusters[i].name in k8s.byName {
        MemberIsDescribed(clusters[i], names[i]);
        assert Named(values, i, clusters[i].name);
        LastWinsKeys(v, values, clusters[i].name);
        assert clusters[i].name in k8s.Values();
      }
    }

    function ProjectOr(configProjectId: string): string {
      if configProjectId == "" then projectId else configProjectId
    }

    /** A listed cluster is registered unless its name is taken. */
    method RegisterListed(project: string, g: GkeCluster, ghost v: ClusterValue) returns (c: K8SCluster)
      requires v == GkeValue(project, namespace, g)
      modifies k8s`byName
      ensures fresh(c) && c.Value() == v && Parses(c.name) && c.Cached() == Cache("", "", "")
      ensures k8s.byName == if v.name in old(k8s.byName) then old(k8s.byName) else old(k8s.byName)[v.name := c]
      ensures k8s.Values() == if v.name in old(k8s.Values()) then old(k8s.Values()) else old(k8s.Values())[v.name := v]
    {
      GkeNameParses(project, g.location, g.name);
      c := Register(GkeValue(project, namespace, g), false);
    }

    /** `listed` is what the API lists, if it can be asked. */
    method LoadGKEClusters(configProjectId: string, listed: Option<seq<GkeCluster>>)
      returns (clusters: seq<K8SCluster>, ok: bool)
      modifies k8s`byName
      ensures ok <==> listed.Some?
      ensures k8s.Values() == if !ok then old(k8s.Values()) else
                FirstWins(old(k8s.Values()), GkeValues(ProjectOr(configProjectId), namespace, listed.value))
      ensures OnlyAdded()
      ensures forall k :: k in old(k8s.byName) ==> k8s.byName[k] == old(k8s.byName)[k]
      ensures ok ==> Show(clusters, GkeValues(ProjectOr(configProjectId), namespace, listed.value))
      ensures ok ==> AreListed(clusters, if configProjectId == "" then projectId else configProjectId, listed.value)
    {
      clusters := [];
      if listed == None {
        return [], false;
      }
      var project := ProjectOr(configProjectId);
      var cs := listed.value;
      ghost var all := GkeValues(project, namespace, cs);
      for i := 0 to |cs|
        invariant k8s.Values() == FirstWins(old(k8s.Values()), all[..i])
        invariant OnlyAdded()
        invariant forall k :: k in old(k8s.byName) ==> k8s.byName[k] == old(k8s.byName)[k]
        invariant Show(clusters, all[..i])
      {
        var gkk := RegisterListed(project, cs[i], all[i]);
        FirstWinsNext(old(k8s.Values()), all, i);
        ShowNext(clusters, all, i, gkk);
        clusters := clusters + [gkk];
      }
      assert all[..|cs|] == all;
      LoadedAreListed(clusters, project, cs, old(k8s.Values()));
      ok := true;
    }

    /** A membership replaces the entry of its name, if any. */
    method RegisterMember(resource: string, ghost v: ClusterValue) returns (c: K8SCluster)
      requires v == HubValue(projectId, numericProjectId, Membership(resource))
      modifies k8s`byName
      ensures fresh(c) && c.Value() == v && Parses(c.name) && c.Cached() == Cache("", "", "")
      ensures k8s.byName == old(k8s.byName)[v.name := c]
      ensures k8s.Values() == old(k8s.Values())[v.name := v]
    {
      var mna := Split(resource, '/');
      var mn := mna[|mna| - 1];
      HubNameParses(projectId, mn);
      c := Register(HubValue(projectId, numericProjectId, mn), true);
    }

    /** An error in the middle of the list keeps what was added before it. */
    method LoadHubClusters(memberships: Memberships) returns (clusters: seq<K8SCluster>, ok: bool)
      modifies k8s`byName
      ensures ok <==> memberships.Listed? && !memberships.failed
      ensures k8s.Values() == if memberships.NoClient? then old(k8s.Values()) else
                LastWins(old(k8s.Values()), HubValues(projectId, numericProjectId, memberships.names))
      ensures OnlyAdded()
      ensures ok ==> Show(clusters, HubValues(projectId, numericProjectId, memberships.names))
      ensures ok ==> AreMembers(clusters, memberships.names)
    {
      clusters := [];
      if memberships.NoClient? {
        return [], false;
      }
      var names := memberships.names;
      ghost var all := HubValues(projectId, numericProjectId, names);
      for i := 0 to |names|
        invariant k8s.Values() == LastWins(old(k8s.Values()), all[..i])
        invariant OnlyAdded()
        invariant Show(clusters, all[..i])
      {
        var gk := RegisterMember(names[i], all[i]);
        LastWinsNext(old(k8s.Values()), all, i);
        ShowNext(clusters, all, i, gk);
        clusters := clusters + [gk];
      }
      assert all[..|names|] == all;
      if memberships.failed {
        return [], false;
      }
      LoadedAreMembers(clusters, names, old(k8s.Values()));
      ok := true;
    }

    /** The registry after the loads of Autodetect, whether they succeed or not. */
    function Discovered(v: View, listed: Option<seq<GkeCluster>>, memberships: Memberships): View {
      if listed == None then v else
      var m := FirstWins(v, GkeValues(projectId, namespace, listed.value));
      if memberships.NoClient? then m
      else LastWins(m, HubValues(projectId, numericProjectId, memberships.names))
    }

    lemma DiscoveredParses(v: View, listed: Option<seq<GkeCluster>>, memberships: Memberships)
      requires NamesParse(v)
      ensures NamesParse(Discovered(v, listed, memberships))
    {
      if listed.Some? {
        var gkes := GkeValues(projectId, namespace, listed.value);
        forall i | 0 <= i < |gkes| ensures Parses(gkes[i].name) {
          GkeNameParses(projectId, listed.value[i].location, listed.value[i].name);
        }
        FirstWinsParse(v, gkes);
        if memberships.Listed? {
          var hubs := HubValues(projectId, numericProjectId, memberships.names);
          forall i | 0 <= i < |hubs| ensures Parses(hubs[i].name) {
            HubNameParses(projectId, Membership(memberships.names[i]));
          }
          LastWinsParse(FirstWins(v, gkes), hubs);
        }
      }
    }

    /** The loads of Autodetect; the hub is not asked when listing GKE clusters fails. */
    method LoadAll(listed: Option<seq<GkeCluster>>, memberships: Memberships) returns (ok: bool)
      modifies k8s`byName
      ensures ok <==> listed.Some? && memberships.Listed? && !memberships.failed
      ensures k8s.Values() == Discovered(old(k8s.Values()), listed, memberships)
      ensures listed == None ==> k8s.Values() == old(k8s.Values())
      ensures OnlyAdded()
    {
      var _, loaded := LoadGKEClusters("", listed);
      if !loaded {
        return false;
      }
      var _, hubLoaded := LoadHubClusters(memberships);
      return hubLoaded;
    }

    /** The default, if there is none yet, becomes what FindCluster finds. */
    method SetDefault(region: string, wanted: string)
      requires k8s.defaultCluster == null && region != "" ==> NamesParse(k8s.Values())
      modifies k8s`defaultCluster, k8s.byName.Values
      ensures k8s.Values() == old(k8s.Values())
      ensures old(k8s.defaultCluster) != null ==> k8s.defaultCluster == old(k8s.defaultCluster)
      ensures old(k8s.defaultCluster) == null ==> IsBest(k8s.defaultCluster, k8s.byName.Values, region, wanted)
    {
      if k8s.defaultCluster == null {
        ghost var snapshots := Snapshots(k8s.byName.Values);
        ValuesAsInSnapshots(k8s, snapshots);
        var cl := FindCluster(region, wanted);
        ValuesAsInSnapshots(k8s, snapshots);
        k8s.MakeDefault(cl);
      }
    }

    /** The region comes from the metadata server; it is empty when that fails. */
    method Autodetect(listed: Option<seq<GkeCluster>>, memberships: Memberships, region: string, wanted: string)
      returns (ok: bool)
      requires k8s.defaultCluster == null && region != "" ==> NamesParse(k8s.Values())
      modifies k8s, k8s.byName.Values
      ensures ok <==> listed.Some? && memberships.Listed? && !memberships.failed
      ensures k8s.Values() == Discovered(old(k8s.Values()), listed, memberships)
      ensures !ok || old(k8s.defaultCluster) != null ==> k8s.defaultCluster == old(k8s.defaultCluster)
      ensures ok && old(k8s.defaultCluster) == null ==>
                IsBest(k8s.defaultCluster, k8s.byName.Values, region, wanted)
      ensures ok ==> (k8s.defaultCluster == null <==> old(k8s.defaultCluster) == null && k8s.byName == map[])
    {
      if k8s.defaultCluster == null && region != "" {
        DiscoveredParses(k8s.Values(), listed, memberships);
      }
      ok := LoadAll(listed, memberships);
      if ok {
        SetDefault(region, wanted);
        assert k8s.byName == map[] <==> k8s.byName.Values == {} by {
          assert k8s.byName != map[] ==> exists k :: k in k8s.byName && k8s.byName[k] in k8s.byName.Values;
        }
      }
    }

    /** `found` is the cluster at the explicit path, `listed` and `memberships` what discovery yields. */
    method InitGke(addr: MeshAddr, found: Option<GkeCluster>, listed: Option<seq<GkeCluster>>,
                   memberships: Memberships, region: string) returns (ok: bool)
      requires k8s.defaultCluster == null && !IsExplicit(addr) && region != "" ==> NamesParse(k8s.Values())
      modifies k8s, k8s.byName.Values
      ensures IsExplicit(addr) ==>
                && (ok <==> found.Some?) && k8s.Values() == old(k8s.Values())
                && (if ok then k8s.defaultCluster != null
                               && k8s.defaultCluster.Value() == GkeValue(addr.path, "", found.value)
                               && k8s.defaultCluster.name
                                  == "gke_" + addr.path + "_" + found.value.location + "_" + found.value.name
                    else k8s.defaultCluster == old(k8s.defaultCluster))
      ensures !IsExplicit(addr) ==>
                && (ok <==> listed.Some? && memberships.Listed? && !memberships.failed)
                && k8s.Values() == Discovered(old(k8s.Values()), listed, memberships)
                && (!ok || old(k8s.defaultCluster) != null ==> k8s.defaultCluster == old(k8s.defaultCluster))
                && (ok && old(k8s.defaultCluster) == null ==>
                      IsBest(k8s.defaultCluster, k8s.byName.Values, region, WantedName(addr)))
    {
      if addr.Url? {
        if addr.scheme == "gke" || addr.host == "container.googleapis.com" {
          if |addr.path| > 1 {
            if found == None {
              return false;
            }
            var cl := new K8SCluster(GkeValue(addr.path, "", found.value));
            k8s.defaultCluster := cl;
            return true;
          }
        }
      }
      var findClusterN := "istio";
      if addr.Url? && addr.scheme == "cluster" {
        findClusterN := addr.host;
      }
      ok := Autodetect(listed, memberships, region, findClusterN);
    }

    /** `emulated` says that an address for an emulated metadata server is set. */
    method New(emulated: bool, addr: MeshAddr, found: Option<GkeCluster>, listed: Option<seq<GkeCluster>>,
               memberships: Memberships, region: string) returns (ok: bool)
      requires k8s.defaultCluster == null && !emulated && !IsExplicit(addr) && region != "" ==>
                 NamesParse(k8s.Values())
      modifies k8s, k8s.byName.Values
      ensures ok <==> !(emulated && old(k8s.defaultCluster) == null)
      ensures !ok || old(k8s.defaultCluster) != null ==>
                k8s.defaultCluster == old(k8s.defaultCluster) && k8s.byName == old(k8s.byName)
                && k8s.Values() == old(k8s.Values())
      ensures old(k8s.defaultCluster) != null ==> k8s.defaultCluster.Value() == old(k8s.defaultCluster.Value())
      ensures ok && old(k8s.defaultCluster) == null && IsExplicit(addr) ==>
                if found.Some? then k8s.defaultCluster != null
                                    && k8s.defaultCluster.Value() == GkeValue(addr.path, "", found.value)
                else k8s.defaultCluster == null
      ensures ok && old(k8s.defaultCluster) == null ==>
                k8s.Values() == if IsExplicit(addr) then old(k8s.Values())
                                else Discovered(old(k8s.Values()), listed, memberships)
      ensures ok && old(k8s.defaultCluster) == null && !IsExplicit(addr) ==>
                if listed.Some? && memberships.Listed? && !memberships.failed
                then IsBest(k8s.defaultCluster, k8s.byName.Values, region, WantedName(addr))
                else k8s.defaultCluster == null
    {
      if emulated && k8s.defaultCluster == null {
        return false;
      }
      if k8s.defaultCluster == null {
        var _ := InitGke(addr, found, listed, memberships, region);
      }
      return true;
    }
  }

  /** Every named context can be parsed. */
  ghost predicate ContextsParse(file: KubeConfig) {
    file.Contexts? ==> forall k :: k in file.contexts && file.contexts[k].Valid? ==> Parses(k)
  }

  lemma InitNamesParse(file: KubeConfig, env: Environment, qps: real, burst: int)
    requires ContextsParse(file)
    ensures NamesParse(InitView(map[], file, env, qps, burst))
  {
    assert GKE_PREFIX[0] == 'g' && IN_CLUSTER[0] == 'i' && "default"[0] == 'd';
  }

  /**
   * From an empty set to a default: the valid current context, else the cluster the pod runs in,
   * else the explicit address, else the best discovered cluster. With an emulated metadata server
   * only the first two are looked at.
   */
  method StartUp(qps: real, burst: int, file: KubeConfig, env: Environment, projectId: string, number: string,
                 namespace: string, emulated: bool, addr: MeshAddr, found: Option<GkeCluster>,
                 listed: Option<seq<GkeCluster>>, memberships: Memberships, region: string)
    returns (k8s: K8S, ok: bool)
    requires !emulated && InitDefault(file, env, qps, burst) == None && !IsExplicit(addr) && region != "" ==>
               ContextsParse(file)
    ensures fresh(k8s) && (ContextsParse(file) ==> NamesParse(k8s.Values()))
    ensures ok <==> !emulated || InitDefault(file, env, qps, burst).Some?
    ensures var chosen := InitDefault(file, env, qps, burst);
            if chosen.Some? then
              k8s.defaultCluster != null && k8s.defaultCluster.Value() == chosen.value
            else if emulated then
              k8s.defaultCluster == null
            else if IsExplicit(addr) then
              if found.Some? then k8s.defaultCluster != null
                                  && k8s.defaultCluster.Value() == GkeValue(addr.path, "", found.value)
              else k8s.defaultCluster == null
            else if listed.Some? && memberships.Listed? && !memberships.failed then
              IsBest(k8s.defaultCluster, k8s.byName.Values, region, WantedName(addr))
            else k8s.defaultCluster == null
  {
    k8s := Configured(qps, burst, file, env);
    var gke := new GKE(k8s, projectId, number, namespace);
    if ContextsParse(file) {
      gke.DiscoveredParses(k8s.Values(), listed, memberships);
    }
    ok := gke.New(emulated, addr, found, listed, memberships, region);
  }

  method Configured(qps: real, burst: int, file: KubeConfig, env: Environment) returns (k8s: K8S)
    ensures fresh(k8s) && fresh(k8s.byName.Values)
    ensures ContextsParse(file) ==> NamesParse(k8s.Values())
    ensures match InitDefault(file, env, qps, burst)
            case Some(v) => k8s.defaultCluster != null && k8s.defaultCluster.Value() == v
            case None => k8s.defaultCluster == null
  {
    k8s := new K8S(qps, burst);
    assert k8s.Values() == map[];
    var _ := k8s.Init(file, env);
    if ContextsParse(file) {
      InitNamesParse(file, env, qps, burst);
    }
  }
}
