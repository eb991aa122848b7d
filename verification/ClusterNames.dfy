/** Printing and parsing the names of discovered clusters. */
module ClusterNames {
  import opened Strings

  const GKE_PREFIX := "gke_"
  const HUB_PREFIX := "connectgateway_"

  function GkeName(project: string, location: string, name: string): string {
    GKE_PREFIX + project + "_" + location + "_" + name
  }

  function HubName(project: string, membership: string): string {
    HUB_PREFIX + project + "_global_" + membership
  }

  /** The fields a cluster caches about itself. */
  datatype Cache = Cache(project: string, location: string, name: string)

  const FRESH := Cache("", "", "")

  /** Names that start like a GKE name are indexed up to their fourth part, without a check. */
  predicate Parses(name: string) { GKE_PREFIX <= name ==> |Split(name, '_')| > 3 }

  /** The cached fields after GcpInfo. */
  function Filled(name: string, c: Cache): Cache
    requires Parses(name)
  {
    var parts := Split(name, '_');
    if c.location != "" then c
    else if GKE_PREFIX <= name then Cache(parts[1], parts[2], parts[3])
    else if HUB_PREFIX <= name && |parts| > 2 then c.(project := parts[1])
    else c
  }

  /** What GcpInfo returns. */
  function Info(name: string, c: Cache): (string, string, string)
    requires Parses(name)
  {
    var parts := Split(name, '_');
    if c.location != "" then (c.project, c.location, name)
    else if GKE_PREFIX <= name then (parts[1], parts[2], parts[3])
    else if HUB_PREFIX <= name && |parts| > 2 then (parts[1], "", parts[2])
    else ("", "", name)
  }

  function LabelOf(key: string, c: Cache): string {
    if key == "location" then c.location
    else if key == "project" then c.project
    else if key == "name" then c.name
    else ""
  }

  lemma SplitJoined2(a: string, b: string)
    requires '_' !in a
    ensures Split(a + "_" + b, '_') == [a] + Split(b, '_')
  {
    assert ['_'] == "_";
    SplitFirst(a, b, '_');
  }

  lemma JoinedRight(a: string, b: string, c: string, d: string)
    ensures a + "_" + b + "_" + c + "_" + d == a + "_" + (b + "_" + (c + "_" + d))
  {
  }

  lemma SplitJoined4(a: string, b: string, c: string, d: string)
    requires '_' !in a && '_' !in b && '_' !in c
    ensures Split(a + "_" + b + "_" + c + "_" + d, '_') == [a, b, c] + Split(d, '_')
  {
    JoinedRight(a, b, c, d);
    SplitJoined2(a, b + "_" + (c + "_" + d));
    SplitJoined2(b, c + "_" + d);
    SplitJoined2(c, d);
    ThreeAndMore(a, b, c, Split(d, '_'));
  }

  lemma ThreeAndMore(a: string, b: string, c: string, more: seq<string>)
    ensures [a] + ([b] + ([c] + more)) == [a, b, c] + more
  {
  }

  lemma {:induction false} SplitCount(a: string, b: string)
    ensures |Split(a + "_" + b, '_')| == |Split(a, '_')| + |Split(b, '_')|
  {
    var s := a + "_" + b;
    if a == "" {
      assert s[1..] == b;
    } else {
      assert s[1..] == a[1..] + "_" + b;
      SplitCount(a[1..], b);
    }
  }

  /** Printed GKE names always have the four parts that parsing indexes, whatever their parts are. */
  lemma GkeNameParses(p: string, l: string, n: string)
    ensures Parses(GkeName(p, l, n))
  {
    CountJoined4("gke", p, l, n);
    assert GkeName(p, l, n) == "gke" + "_" + p + "_" + l + "_" + n;
  }

  lemma CountJoined4(a: string, b: string, c: string, d: string)
    ensures |Split(a + "_" + b + "_" + c + "_" + d, '_')|
         == |Split(a, '_')| + |Split(b, '_')| + |Split(c, '_')| + |Split(d, '_')|
  {
    SplitCount(a + "_" + b + "_" + c, d);
    SplitCount(a + "_" + b, c);
    SplitCount(a, b);
  }

  lemma HubNameParses(p: string, m: string)
    ensures Parses(HubName(p, m))
  {
    assert HubName(p, m)[0] == 'c';
  }

  /** A printed GKE name parses back to its triple exactly when no part contains the separator. */
  lemma GkeRoundTripIff(p: string, l: string, n: string)
    ensures Parses(GkeName(p, l, n))
    ensures Filled(GkeName(p, l, n), FRESH) == Cache(p, l, n) <==> '_' !in p && '_' !in l && '_' !in n
  {
    GkeNameParses(p, l, n);
    var s := GkeName(p, l, n);
    JoinSplit(s, '_');
    if '_' !in p && '_' !in l && '_' !in n {
      assert s == "gke" + "_" + p + "_" + l + "_" + n;
      SplitJoined4("gke", p, l, n);
      SplitPlain(n, '_');
    } else {
      var parts := Split(s, '_');
      assert '_' !in parts[1] && '_' !in parts[2] && '_' !in parts[3];
    }
  }

  /** The project of a printed hub name is recovered exactly when it has no separator. */
  lemma HubRoundTripIff(p: string, m: string)
    ensures Parses(HubName(p, m))
    ensures Filled(HubName(p, m), FRESH) == Cache(p, "", "") <==> '_' !in p
  {
    HubNameParses(p, m);
    var s := HubName(p, m);
    JoinSplit(s, '_');
    if '_' !in p {
      assert s == "connectgateway" + "_" + p + "_" + "global" + "_" + m;
      SplitJoined4("connectgateway", p, "global", m);
    } else {
      var parts := Split(s, '_');
      assert |parts| > 1 ==> '_' !in parts[1];
    }
  }

  // What the names are, in the text of their parts.

  ghost predicate IsGkeName(name: string, p: string, l: string, n: string) {
    name == "gke_" + p + "_" + l + "_" + n && '_' !in p && '_' !in l && '_' !in n
  }

  ghost predicate IsHubName(name: string, p: string, m: string) {
    name == "connectgateway_" + p + "_global_" + m && '_' !in p
  }

  /** A fresh cache of a GKE name is filled with its parts, and they are what is returned. */
  lemma GkeNameIsParsed(name: string, p: string, l: string, n: string)
    requires IsGkeName(name, p, l, n)
    ensures Parses(name) && Filled(name, Cache("", "", "")) == Cache(p, l, n)
    ensures Info(name, Cache("", "", "")) == (p, l, n)
    ensures Filled(name, Cache(p, l, n)) == Cache(p, l, n)
    ensures LabelOf("project", Cache(p, l, n)) == p
    ensures LabelOf("location", Cache(p, l, n)) == l
    ensures LabelOf("name", Cache(p, l, n)) == n
  {
    assert name == GkeName(p, l, n);
    GkeRoundTripIff(p, l, n);
  }

  /** Of a hub name the project is filled in; the third part returned is "global", not the membership. */
  lemma HubNameIsParsed(name: string, p: string, m: string)
    requires IsHubName(name, p, m)
    ensures Parses(name) && Filled(name, Cache("", "", "")) == Cache(p, "", "")
    ensures Info(name, Cache("", "", "")) == (p, "", "global")
    ensures Filled(name, Cache(p, "", "")) == Cache(p, "", "")
  {
    assert name == HubName(p, m);
    HubRoundTripIff(p, m);
    assert name == "connectgateway" + "_" + p + "_" + "global" + "_" + m;
    SplitJoined4("connectgateway", p, "global", m);
  }

  /** The calls that can fill the cache. */
  datatype Call = GcpInfo | Location | Label(key: string)

  predicate Fills(call: Call) { call.Label? ==> call.key in ["location", "project", "name"] }

  function AfterCalls(name: string, calls: seq<Call>): Cache
    requires Parses(name)
  {
    if calls == [] then FRESH else
    var c := AfterCalls(name, calls[..|calls| - 1]);
    if Fills(calls[|calls| - 1]) then Filled(name, c) else c
  }

  /** Under any sequence of calls the cache is empty or the triple, and every label is the triple's. */
  lemma {:induction false} GkeLabelsStable(p: string, l: string, n: string, calls: seq<Call>)
    requires '_' !in p && '_' !in l && '_' !in n
    ensures Parses(GkeName(p, l, n))
    ensures var c := AfterCalls(GkeName(p, l, n), calls);
            && c == (if exists i :: 0 <= i < |calls| && Fills(calls[i]) then Cache(p, l, n) else FRESH)
            && Filled(GkeName(p, l, n), c) == Cache(p, l, n)
  {
    GkeRoundTripIff(p, l, n);
    if calls != [] {
      GkeLabelsStable(p, l, n, calls[..|calls| - 1]);
    }
  }

  lemma {:induction false} HubLabelsStable(p: string, m: string, calls: seq<Call>)
    requires '_' !in p
    ensures Parses(HubName(p, m))
    ensures var c := AfterCalls(HubName(p, m), calls);
            && c == (if exists i :: 0 <= i < |calls| && Fills(calls[i]) then Cache(p, "", "") else FRESH)
            && Filled(HubName(p, m), c) == Cache(p, "", "")
  {
    HubRoundTripIff(p, m);
    if calls != [] {
      HubLabelsStable(p, m, calls[..|calls| - 1]);
    }
  }

  /**
   * Asking for the parts again gives what was given first, if and only if the name is none of GKE
   * or its location is empty; the name comes back whole otherwise.
   */
  lemma InfoRepeatsIff(name: string)
    requires Parses(name)
    ensures Info(name, Filled(name, FRESH)) == Info(name, FRESH)
       <==> (GKE_PREFIX <= name ==> Split(name, '_')[2] == "")
  {
    if GKE_PREFIX <= name {
      JoinSplit(name, '_');
      assert name[3] == '_' && '_' !in Split(name, '_')[3];
    }
  }

  /** What asking a discovered cluster gives after any calls: its triple, or the whole name in it. */
  lemma GkeInfoAfterCalls(p: string, l: string, n: string, calls: seq<Call>)
    requires '_' !in p && '_' !in l && '_' !in n
    ensures Parses(GkeName(p, l, n)) && GkeName(p, l, n) != n
    ensures var whole := l != "" && exists i :: 0 <= i < |calls| && Fills(calls[i]);
            Info(GkeName(p, l, n), AfterCalls(GkeName(p, l, n), calls)) == (p, l, if whole then GkeName(p, l, n) else n)
  {
    GkeRoundTripIff(p, l, n);
    GkeLabelsStable(p, l, n, calls);
    assert GkeName(p, l, n)[3] == '_';
  }

  lemma GkeNameInjective(p: string, l: string, n: string, p': string, l': string, n': string)
    requires '_' !in p && '_' !in l && '_' !in n && '_' !in p' && '_' !in l' && '_' !in n'
    requires GkeName(p, l, n) == GkeName(p', l', n')
    ensures p == p' && l == l' && n == n'
  {
    GkeRoundTripIff(p, l, n);
    GkeRoundTripIff(p', l', n');
  }

  lemma NamesDisjoint(p: string, l: string, n: string, p': string, m: string)
    ensures GkeName(p, l, n) != HubName(p', m)
  {
    assert GkeName(p, l, n)[0] == 'g' && HubName(p', m)[0] == 'c';
  }
}
