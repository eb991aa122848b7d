/** A configured cluster, with the fields it parses out of its name on demand. */
module Clusters {
  import opened Strings
  import opened ClusterNames

  /** `source` stands for host and credentials. */
  datatype RestConfig = RestConfig(source: string, qps: real, burst: int)

  /** A cluster as a value: everything but the cached fields. */
  datatype ClusterValue = ClusterValue(name: string, namespace: string, config: RestConfig)

  class K8SCluster {
    var restConfig: RestConfig
    var name: string
    var namespace: string
    var project: string
    var location: string
    var shortName: string

    constructor (v: ClusterValue)
      ensures Value() == v && Cached() == FRESH
    {
      name, namespace, restConfig := v.name, v.namespace, v.config;
      project, location, shortName := "", "", "";
    }

    ghost function Value(): ClusterValue
      reads this
    {
      ClusterValue(name, namespace, restConfig)
    }

    ghost function Cached(): Cache
      reads this
    {
      Cache(project, location, shortName)
    }

    /** A cluster of a printed GKE name that was not asked yet, or was. */
    ghost predicate Shows(p: string, l: string, n: string)
      reads this
    {
      IsGkeName(name, p, l, n) && ((project, location, shortName) == ("", "", "") || Answered(p, l, n))
    }

    ghost predicate Answered(p: string, l: string, n: string)
      reads this
    {
      (project, location, shortName) == (p, l, n)
    }

    method GcpInfo() returns (p: string, l: string, n: string)
      requires Parses(name)
      modifies this`project, this`location, this`shortName
      ensures Cached() == Filled(name, old(Cached()))
      ensures (p, l, n) == Info(name, old(Cached()))
      ensures forall a, b, c :: old(Shows(a, b, c)) ==>
                Answered(a, b, c) && p == a && l == b && (old(location) == "" ==> n == c)
    {
      forall a, b, c | Shows(a, b, c) ensures Filled(name, Cached()) == Cache(a, b, c) {
        GkeNameIsParsed(name, a, b, c);
      }
      if location != "" {
        return project, location, name;
      }
      var cf := name;
      if GKE_PREFIX <= cf {
        var parts := Split(cf, '_');
        project := parts[1];
        location := parts[2];
        shortName := parts[3];
        if |parts| > 3 {
          return parts[1], parts[2], parts[3];
        }
      }
      if HUB_PREFIX <= cf {
        var parts := Split(cf, '_');
        if |parts| > 2 {
          project := parts[1];
          return parts[1], "", parts[2];
        }
      }
      return "", "", cf;
    }

    method Location() returns (l: string)
      requires Parses(name)
      modifies this`project, this`location, this`shortName
      ensures Cached() == Filled(name, old(Cached()))
      ensures l == location
      ensures forall a, b, c :: old(Shows(a, b, c)) ==> Shows(a, b, c) && l == b
    {
      if location == "" {
        var _, _, _ := GcpInfo();
      }
      l := location;
    }

    method Label(key: string) returns (v: string)
      requires Parses(name)
      modifies this`project, this`location, this`shortName
      ensures Cached() == if Fills(Call.Label(key)) then Filled(name, old(Cached())) else old(Cached())
      ensures v == LabelOf(key, Cached())
      ensures key == "location" ==> v == location
      ensures key == "project" ==> v == project
      ensures key == "name" ==> v == shortName
      ensures key !in ["location", "project", "name"] ==> v == "" && Cached() == old(Cached())
      ensures forall a, b, c :: old(Shows(a, b, c)) ==>
                && Shows(a, b, c)
                && (key == "location" ==> v == b)
                && (key == "project" ==> v == a)
                && (key == "name" ==> v == c)
    {
      if key == "location" {
        v := Location();
        return;
      } else if key == "project" {
        var _, _, _ := GcpInfo();
        return project;
      } else if key == "name" {
        var _, _, _ := GcpInfo();
        return shortName;
      }
      return "";
    }
  }
}
