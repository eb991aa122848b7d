/** The set of configured clusters and its loaders from kubeconfig and the pod's own files. */
module K8SSet {
  import opened Wrappers
  import opened Clusters
  import opened Registry

  class K8S {
    const qps: real
    const burst: int
    var defaultCluster: K8SCluster?
    var byName: map<string, K8SCluster>

    constructor (qps: real, burst: int)
      ensures this.qps == qps && this.burst == burst
      ensures defaultCluster == null && byName == map[]
    {
      this.qps, this.burst := qps, burst;
      defaultCluster, byName := null, map[];
    }

    ghost function Values(): View
      reads this`byName, byName.Values
    {
      map k | k in byName :: byName[k].Value()
    }

    method MakeDefault(c: K8SCluster?)
      modifies this`defaultCluster
      ensures defaultCluster == c && Values() == old(Values())
    {
      defaultCluster := c;
    }

    ghost function DefaultSet(): set<K8SCluster>
      reads this
    {
      if defaultCluster == null then {} else {defaultCluster}
    }

    /** The default is under key `k` and no other. */
    ghost predicate DefaultIsAt(k: string)
      reads this
    {
      && defaultCluster != null && k in byName && byName[k] == defaultCluster
      && forall l :: l in byName && byName[l] == defaultCluster ==> l == k
    }

    /** The cluster is the context, with the rate limits of the set where these are positive. */
    ghost predicate Configures(c: K8SCluster, k: string, cc: Context)
      requires cc.Valid?
      reads c
    {
      && c.name == k && c.namespace == cc.namespace && c.restConfig.source == cc.config.source
      && c.restConfig.qps == (if qps > 0.0 then qps else cc.config.qps)
      && c.restConfig.burst == (if burst > 0 then burst else cc.config.burst)
    }

    /** One turn of the loop over contexts. */
    method LoadContext(k: string, cc: Context, current: string)
      modifies this
      ensures cc.Invalid? ==> byName == old(byName) && defaultCluster == old(defaultCluster)
      ensures cc.Valid? ==>
                && k in byName && byName == old(byName)[k := byName[k]]
                && fresh(byName[k]) && byName[k].Value() == ContextValue(k, cc, qps, burst)
                && Configures(byName[k], k, cc)
                && defaultCluster == if old(defaultCluster) == null && k == current then byName[k]
                                     else old(defaultCluster)
    {
      if cc.Invalid? {
        return;
      }
      var config := cc.config;
      if qps > 0.0 {
        config := config.(qps := qps);
      }
      if burst > 0 {
        config := config.(burst := burst);
      }
      var kcc := new K8SCluster(ClusterValue(k, cc.namespace, config));
      byName := byName[k := kcc];
      if defaultCluster == null && k == current {
        defaultCluster := kcc;
      }
    }

    /** The contexts come in any order; what is loaded is a function of their map. */
    method LoadKubeConfig(file: KubeConfig) returns (ok: bool)
      modifies this
      ensures ok <==> !file.Broken?
      ensures Values() == old(Values()) + KubeValues(file, qps, burst)
      ensures forall k :: k in byName ==>
                if k in KubeValues(file, qps, burst) then fresh(byName[k])
                else k in old(byName) && byName[k] == old(byName)[k]
      ensures file.Contexts? ==> forall k :: k in file.contexts && file.contexts[k].Valid? ==>
                k in byName && Configures(byName[k], k, file.contexts[k])
      ensures if old(defaultCluster) == null && HasCurrent(file) then DefaultIsAt(file.current)
              else defaultCluster == old(defaultCluster)
    {
      if file.Missing? {
        return true;
      }
      if file.Broken? {
        return false;
      }
      LoadContexts(file);
      return true;
    }

    method LoadContexts(file: KubeConfig)
      requires file.Contexts?
      modifies this
      ensures forall k :: k in byName <==> k in old(byName) || k in KubeValues(file, qps, burst)
      ensures forall k :: k in byName ==>
                if k in KubeValues(file, qps, burst)
                then fresh(byName[k]) && byName[k].Value() == KubeValues(file, qps, burst)[k]
                else byName[k] == old(byName)[k]
      ensures if old(defaultCluster) == null && HasCurrent(file) then DefaultIsAt(file.current)
              else defaultCluster == old(defaultCluster)
    {
      ghost var loaded := KubeValues(file, qps, burst);
      var rest := file.contexts.Keys;
      while rest != {}
        invariant rest <= file.contexts.Keys
        invariant forall k :: k in byName <==> k in old(byName) || (k in loaded && k !in rest)
        invariant forall k :: k in byName ==>
                    if k in loaded && k !in rest then fresh(byName[k]) && byName[k].Value() == loaded[k]
                    else byName[k] == old(byName)[k]
        invariant if old(defaultCluster) == null && HasCurrent(file) && file.current !in rest
                  then DefaultIsAt(file.current) else defaultCluster == old(defaultCluster)
        decreases rest
      {
        var k :| k in rest;
        rest := rest - {k};
        LoadContext(k, file.contexts[k], file.current);
      }
    }

    method LoadInCluster(env: Environment) returns (ok: bool)
      modifies this
      ensures ok <==> !env.BadRoots?
      ensures Values() == InClusterMerge(old(Values()), env)
      ensures env.InCluster? ==> IN_CLUSTER in byName && fresh(byName[IN_CLUSTER])
      ensures env.InCluster? ==>
                "incluster" in byName
                && byName["incluster"].Value() == ClusterValue("incluster", env.namespace, env.config)
      ensures byName == if env.InCluster? then old(byName)[IN_CLUSTER := byName[IN_CLUSTER]] else old(byName)
      ensures if old(defaultCluster) == null && env.InCluster? then DefaultIsAt(IN_CLUSTER)
              else defaultCluster == old(defaultCluster)
    {
      if env.NoToken? {
        return true;
      }
      if env.BadRoots? {
        return false;
      }
      var ic := new K8SCluster(InClusterValue(env));
      byName := byName[ic.name := ic];
      if defaultCluster == null {
        defaultCluster := ic;
      }
      return true;
    }

    /** The registry with the default cluster fixed, under whatever keys it has. */
    ghost function FixedValues(): View
      reads this, byName.Values
    {
      map k | k in byName ::
        if byName[k] == defaultCluster then Defaulted(byName[k].Value()) else byName[k].Value()
    }

    lemma FixedAt(k: string)
      requires DefaultIsAt(k)
      ensures FixedValues() == Values()[k := Defaulted(Values()[k])]
    {
    }

    lemma FixedOutside()
      requires defaultCluster == null || defaultCluster !in byName.Values
      ensures FixedValues() == Values()
    {
    }

    /** The fix Init defers; it changes the default cluster only. */
    method FixDefault()
      modifies DefaultSet()
      ensures defaultCluster != null ==> defaultCluster.Value() == Defaulted(old(defaultCluster.Value()))
      ensures defaultCluster != null ==>
                && defaultCluster.name
                   == (if old(defaultCluster.name) == "" then "default" else old(defaultCluster.name))
                && defaultCluster.namespace
                   == (if old(defaultCluster.namespace) == "" then "default" else old(defaultCluster.namespace))
                && defaultCluster.restConfig == old(defaultCluster.restConfig)
      ensures Values() == old(FixedValues())
    {
      if defaultCluster != null {
        if defaultCluster.namespace == "" {
          defaultCluster.namespace := "default";
        }
        if defaultCluster.name == "" {
          defaultCluster.name := "default";
        }
      }
    }

    /** What Init does before the deferred fix. */
    method Load(file: KubeConfig, env: Environment) returns (ok: bool)
      modifies this
      ensures old(defaultCluster) != null ==>
                ok && byName == old(byName) && defaultCluster == old(defaultCluster)
      ensures old(defaultCluster) == null ==>
                && ok == (!file.Broken? && !env.BadRoots?)
                && (forall k :: k in byName ==>
                      (k in old(byName) && byName[k] == old(byName)[k]) || fresh(byName[k]))
                && Values() == LoadedView(old(Values()), file, env, qps, burst)
                && match InitKey(file, env)
                   case Some(k) =>
                     && defaultCluster != null
                     && defaultCluster.Value() == InitValue(file, env, qps, burst)
                     && fresh(defaultCluster)
                     && if Displaced(file, env) then defaultCluster !in byName.Values else DefaultIsAt(k)
                   case None => defaultCluster == null
    {
      if defaultCluster != null {
        return true;
      }
      ok := LoadKubeConfig(file);
      assert HasCurrent(file) ==> defaultCluster.Value() == Values()[file.current];
      if ok {
        ok := LoadInCluster(env);
        assert !HasCurrent(file) && env.InCluster? ==> defaultCluster.Value() == Values()[IN_CLUSTER];
      }
    }

    /** Preset default first, then a valid current context, then the cluster the pod runs in. */
    method Init(file: KubeConfig, env: Environment) returns (ok: bool)
      modifies this, DefaultSet()
      ensures old(defaultCluster) != null ==>
                && ok && byName == old(byName) && defaultCluster == old(defaultCluster)
                && defaultCluster.Value() == Defaulted(old(defaultCluster.Value()))
                && Values() == old(FixedValues())
      ensures old(defaultCluster) == null ==>
                && ok == (!file.Broken? && !env.BadRoots?)
                && (forall k :: k in byName ==>
                      (k in old(byName) && byName[k] == old(byName)[k]) || fresh(byName[k]))
                && Values() == InitView(old(Values()), file, env, qps, burst)
                && match InitDefault(file, env, qps, burst)
                   case Some(v) => defaultCluster != null && defaultCluster.Value() == v
                   case None => defaultCluster == null
      ensures old(defaultCluster) == null && HasCurrent(file) ==>
                var cc := file.contexts[file.current];
                && defaultCluster != null
                && defaultCluster.name == (if file.current == "" then "default" else file.current)
                && defaultCluster.namespace == (if cc.namespace == "" then "default" else cc.namespace)
                && defaultCluster.restConfig.source == cc.config.source
    {
      ghost var preset := defaultCluster != null;
      ok := Load(file, env);
      if !preset {
        if InitKey(file, env).Some? && !Displaced(file, env) {
          FixedAt(InitKey(file, env).value);
        } else {
          FixedOutside();
        }
      }
      FixDefault();
    }
  }
}
