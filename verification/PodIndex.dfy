/** The pod/IP index as a state machine over informer events, and what holds of its runs. */
module PodIndex {
  import opened Wrappers
  import opened EventTraces

  /** The parts of a pod the handlers read; `rest` stands for everything else in the object. */
  datatype Pod = Pod(namespace: string, name: string, podIP: string, rest: int)
  datatype PodKey = PodKey(namespace: string, name: string)

  /** What an informer hands to a handler. A missed deletion arrives as DeletedFinalStateUnknown. */
  datatype Object =
    | PodObject(pod: Pod)
    | SliceObject(endpoints: nat)
    | NodeObject(node: string)
    | DeletedFinalStateUnknown(key: PodKey)
    | OtherObject

  datatype Event =
    | Add(obj: Object, isInInitialList: bool)
    | Update(oldObj: Object, obj: Object)
    | Delete(obj: Object)

  datatype State = State(
    ipToSrc: map<string, Pod>, podInfo: map<string, Pod>, pods: int, slices: int, sliceIPs: int)

  const EMPTY := State(map[], map[], 0, 0, 0)

  const TWO_31 := 0x8000_0000
  const TWO_32 := 0x1_0000_0000

  /** The int32 that is congruent to `n` modulo 2^32: both Go's conversion and its wrap-around. */
  function Int32(n: int): (r: int)
    ensures -TWO_31 <= r < TWO_31
    ensures (n - r) % TWO_32 == 0
  {
    (n + TWO_31) % TWO_32 - TWO_31
  }

  lemma Int32Shift(n: int, q: int)
    ensures Int32(n + q * TWO_32) == Int32(n)
  {
    var m := n + TWO_31;
    assert m == m / TWO_32 * TWO_32 + m % TWO_32;
    assert m + q * TWO_32 == (m / TWO_32 + q) * TWO_32 + m % TWO_32;
  }

  lemma Int32IsShift(n: int) returns (q: int)
    ensures Int32(n) == n + q * TWO_32
  {
    q := -((n + TWO_31) / TWO_32);
  }

  lemma Int32Add(a: int, b: int)
    ensures Int32(Int32(a) + b) == Int32(a + b) == Int32(a + Int32(b))
  {
    var p := Int32IsShift(a);
    var q := Int32IsShift(b);
    Int32Shift(a + b, p);
    Int32Shift(a + b, q);
  }

  function Key(p: Pod): PodKey { PodKey(p.namespace, p.name) }

  /** The key under which PodInfo files a pod. */
  function InfoKey(p: Pod): string { p.name + "." + p.namespace }

  function Step(s: State, e: Event): State {
    match e
    case Add(SliceObject(n), _) =>
      s.(slices := Int32(s.slices + 1), sliceIPs := Int32(s.sliceIPs + Int32(n)))
    case Add(PodObject(p), _) =>
      s.(podInfo := s.podInfo[InfoKey(p) := p],
         pods := Int32(s.pods + 1),
         ipToSrc := if p.podIP != "" then s.ipToSrc[p.podIP := p] else s.ipToSrc)
    case Update(_, PodObject(p)) =>
      s.(ipToSrc := s.ipToSrc[p.podIP := p])
    case Delete(PodObject(p)) =>
      s.(pods := Int32(s.pods - 1),
         ipToSrc := if p.podIP != "" then s.ipToSrc - {p.podIP} else s.ipToSrc)
    case _ => s
  }

  /** The index after a whole trace. */
  function Run(es: seq<Event>): State {
    if es == [] then EMPTY else Step(Run(es[..|es| - 1]), es[|es| - 1])
  }

  // ----- Arbitrary traces: the index replays the last touch of each address -----

  predicate IsPodEvent(e: Event) { e.obj.PodObject? }

  predicate Touches(e: Event, ip: string) {
    IsPodEvent(e) && e.obj.pod.podIP == ip && (ip != "" || e.Update?)
  }

  ghost predicate IsLastTouch(es: seq<Event>, i: int, ip: string) {
    0 <= i < |es| && Touches(es[i], ip) && forall j :: i < j < |es| ==> !Touches(es[j], ip)
  }

  /** An address is mapped to a pod exactly when the last event touching it stored that pod. */
  lemma {:induction false} LastTouchReplay(es: seq<Event>, ip: string, v: Pod)
    ensures (ip in Run(es).ipToSrc && Run(es).ipToSrc[ip] == v)
       <==> exists i :: IsLastTouch(es, i, ip) && !es[i].Delete? && es[i].obj == PodObject(v)
  {
    if es != [] {
      var n := |es| - 1;
      var pre := es[..n];
      if Touches(es[n], ip) {
        assert IsLastTouch(es, n, ip);
      } else {
        LastTouchReplay(pre, ip, v);
        forall i | 0 <= i < n ensures IsLastTouch(pre, i, ip) <==> IsLastTouch(es, i, ip) {
          assert forall j :: 0 <= j < n ==> pre[j] == es[j];
        }
      }
    }
  }

  /** Every stored pod is filed under its own address. */
  lemma StoredUnderOwnIP(es: seq<Event>, ip: string)
    requires ip in Run(es).ipToSrc
    ensures Run(es).ipToSrc[ip].podIP == ip
  {
    LastTouchReplay(es, ip, Run(es).ipToSrc[ip]);
  }

  predicate AddsInfo(e: Event, key: string) {
    e.Add? && IsPodEvent(e) && InfoKey(e.obj.pod) == key
  }

  /** PodInfo holds exactly the pods ever added, each with the object of its last Add. */
  lemma {:induction false} PodInfoReplay(es: seq<Event>, key: string, v: Pod)
    ensures (key in Run(es).podInfo && Run(es).podInfo[key] == v)
       <==> exists i :: 0 <= i < |es| && AddsInfo(es[i], key) && es[i].obj.pod == v
                     && forall j :: i < j < |es| ==> !AddsInfo(es[j], key)
  {
    if es != [] {
      var n := |es| - 1;
      var pre := es[..n];
      assert forall j :: 0 <= j < n ==> pre[j] == es[j];
      PodInfoReplay(pre, key, v);
      if !AddsInfo(es[n], key) {
        assert key in Run(es).podInfo <==> key in Run(pre).podInfo;
      } else if es[n].obj.pod == v {
        assert AddsInfo(es[n], key);
      }
    }
  }

  /** Namespaces are DNS labels, so they hold no dot; then no two pods share a PodInfo entry. */
  lemma InfoKeyInjective(p: Pod, q: Pod)
    requires '.' !in p.namespace && '.' !in q.namespace
    ensures InfoKey(p) == InfoKey(q) <==> Key(p) == Key(q)
  {
    if InfoKey(p) == InfoKey(q) {
      var s := InfoKey(p);
      var i, j := |p.name|, |q.name|;
      assert s[i] == '.' && s[j] == '.';
      forall k | i < k < |s| ensures s[k] != '.' { assert s[k] == p.namespace[k - i - 1]; }
      forall k | j < k < |s| ensures s[k] != '.' { assert s[k] == q.namespace[k - j - 1]; }
      assert p.name == s[..i] && q.name == s[..j];
      assert p.namespace == s[i + 1..] && q.namespace == s[j + 1..];
    }
  }

  ghost predicate AddedAs(e: Event, name: string, namespace: string) {
    e.Add? && e.obj.PodObject? && e.obj.pod.name == name && e.obj.pod.namespace == namespace
  }

  /** Under "name.namespace", PodInfo holds what the last Add of the pod with that name and namespace delivered. */
  lemma PodInfoIff(es: seq<Event>, name: string, namespace: string, v: Pod)
    requires DotFreeNamespaces(es) && '.' !in namespace
    ensures (name + "." + namespace in Run(es).podInfo && Run(es).podInfo[name + "." + namespace] == v)
       <==> exists i :: 0 <= i < |es| && AddedAs(es[i], name, namespace) && es[i].obj.pod == v
                     && forall j :: i < j < |es| ==> !AddedAs(es[j], name, namespace)
  {
    var key := name + "." + namespace;
    PodInfoReplay(es, key, v);
    forall i | 0 <= i < |es| ensures AddedAs(es[i], name, namespace) <==> AddsInfo(es[i], key) {
      assert es[i] in es;
      if es[i].Add? && IsPodEvent(es[i]) {
        InfoKeyInjective(es[i].obj.pod, Pod(namespace, name, "", 0));
      }
    }
  }

  // ----- Counters -----

  function PodWeight(e: Event): int {
    if !IsPodEvent(e) then 0 else if e.Add? then 1 else if e.Delete? then -1 else 0
  }

  predicate IsSliceAdd(e: Event) { e.Add? && e.obj.SliceObject? }

  function SliceWeight(e: Event): int { if IsSliceAdd(e) then 1 else 0 }

  function EndpointWeight(e: Event): int {
    if IsSliceAdd(e) then e.obj.endpoints else 0
  }

  lemma StepCounters(s: State, e: Event)
    ensures Step(s, e).pods == if PodWeight(e) == 0 then s.pods else Int32(s.pods + PodWeight(e))
    ensures Step(s, e).slices == if SliceWeight(e) == 0 then s.slices else Int32(s.slices + SliceWeight(e))
    ensures !IsSliceAdd(e) ==> Step(s, e).sliceIPs == s.sliceIPs && EndpointWeight(e) == 0
    ensures IsSliceAdd(e) ==> Step(s, e).sliceIPs == Int32(s.sliceIPs + Int32(EndpointWeight(e)))
  {
  }

  /** Each counter is the exact sum over the trace, reduced to an int32. */
  lemma {:induction false} CountersAreSums(es: seq<Event>)
    ensures Run(es).pods == Int32(Sum(es, PodWeight))
    ensures Run(es).slices == Int32(Sum(es, SliceWeight))
    ensures Run(es).sliceIPs == Int32(Sum(es, EndpointWeight))
  {
    if es != [] {
      var pre, e := es[..|es| - 1], es[|es| - 1];
      CountersAreSums(pre);
      StepCounters(Run(pre), e);
      Truncated(Run(pre).pods, Sum(pre, PodWeight), PodWeight(e));
      Truncated(Run(pre).slices, Sum(pre, SliceWeight), SliceWeight(e));
      Truncated(Run(pre).sliceIPs, Sum(pre, EndpointWeight), EndpointWeight(e));
    }
  }

  lemma {:induction false} SliceWeights(es: seq<Event>)
    ensures Sum(es, SliceWeight) == |Filter(es, IsSliceAdd)|
  {
    if es != [] { SliceWeights(es[..|es| - 1]); }
  }

  /** Slices counts the EndpointSlices ever added. */
  lemma SlicesAreAdded(es: seq<Event>)
    ensures Run(es).slices == Int32(|Filter(es, (e: Event) => e.Add? && e.obj.SliceObject?)|)
  {
    CountersAreSums(es);
    SliceWeights(es);
    var added := (e: Event) => e.Add? && e.obj.SliceObject?;
    SameFilter(es, IsSliceAdd, added);
  }

  /** A counter that is the truncated total stays so, whether or not the weight is truncated first. */
  lemma Truncated(counter: int, total: int, weight: int)
    requires counter == Int32(total)
    ensures Int32(counter + weight) == Int32(total + weight)
    ensures Int32(counter + Int32(weight)) == Int32(total + weight)
  {
    Int32Add(total, weight);
    Int32Add(counter, weight);
  }

  // ----- Live pods, and when the index shows them -----

  /** The live pods, each with the object last delivered for it. */
  function Live(es: seq<Event>): map<PodKey, Pod> {
    if es == [] then map[] else
    var live := Live(es[..|es| - 1]);
    var e := es[|es| - 1];
    match e.obj
    case PodObject(p) => if e.Delete? then live - {Key(p)} else live[Key(p) := p]
    case DeletedFinalStateUnknown(k) => if e.Delete? then live - {k} else live
    case _ => live
  }

  /** The pod an event is about. */
  function Subject(e: Event): Option<PodKey> {
    match e.obj
    case PodObject(p) => Some(Key(p))
    case DeletedFinalStateUnknown(k) => if e.Delete? then Some(k) else None
    case _ => None
  }

  ghost predicate IsLastOf(es: seq<Event>, i: int, k: PodKey) {
    0 <= i < |es| && Subject(es[i]) == Some(k) && forall j :: i < j < |es| ==> Subject(es[j]) != Some(k)
  }

  /** A pod is live as `v` exactly when the last event about it delivered `v`. */
  lemma {:induction false} LiveReplay(es: seq<Event>, k: PodKey, v: Pod)
    ensures (k in Live(es) && Live(es)[k] == v)
       <==> exists i :: IsLastOf(es, i, k) && !es[i].Delete? && es[i].obj == PodObject(v)
  {
    if es != [] {
      var n := |es| - 1;
      var pre := es[..n];
      if Subject(es[n]) == Some(k) {
        assert IsLastOf(es, n, k);
      } else {
        LiveReplay(pre, k, v);
        forall i | 0 <= i < n ensures IsLastOf(pre, i, k) <==> IsLastOf(es, i, k) {
          assert forall j :: 0 <= j < n ==> pre[j] == es[j];
        }
      }
    }
  }

  /** On non-empty addresses the index is the inverse of the live-pod map, with current objects. */
  ghost predicate Exact(index: map<string, Pod>, live: map<PodKey, Pod>) {
    && (forall k :: k in live && live[k].podIP != "" ==>
          live[k].podIP in index && index[live[k].podIP] == live[k])
    && (forall ip :: ip in index && ip != "" ==>
          index[ip].podIP == ip && Key(index[ip]) in live && live[Key(index[ip])] == index[ip])
  }

  /** The event gives its pod an address. */
  predicate Assigns(e: Event) { IsPodEvent(e) && !e.Delete? && e.obj.pod.podIP != "" }

  /** The event at `i` is the last on its address if and only if it is the last about its pod. */
  ghost predicate InStep(es: seq<Event>, i: int)
    requires 0 <= i < |es| && Assigns(es[i])
  {
    IsLastTouch(es, i, es[i].obj.pod.podIP) <==> IsLastOf(es, i, Key(es[i].obj.pod))
  }

  /**
   * On any trace at all, the index is exact if and only if each event that assigns an address is
   * the last to touch the address exactly when it is the last about its pod.
   */
  lemma IndexExactIff(es: seq<Event>)
    ensures Exact(Run(es).ipToSrc, Live(es))
       <==> forall i :: 0 <= i < |es| && Assigns(es[i]) ==> InStep(es, i)
  {
    if Exact(Run(es).ipToSrc, Live(es)) {
      forall i | 0 <= i < |es| && Assigns(es[i]) ensures InStep(es, i) {
        ExactIsInStep(es, i);
      }
    }
    if forall i :: 0 <= i < |es| && Assigns(es[i]) ==> InStep(es, i) {
      InStepIsExact(es);
    }
  }

  lemma ExactIsInStep(es: seq<Event>, i: int)
    requires Exact(Run(es).ipToSrc, Live(es))
    requires 0 <= i < |es| && Assigns(es[i])
    ensures InStep(es, i)
  {
    var p := es[i].obj.pod;
    LastTouchReplay(es, p.podIP, p);
    LiveReplay(es, Key(p), p);
    if IsLastTouch(es, i, p.podIP) {
      var j :| IsLastOf(es, j, Key(p)) && !es[j].Delete? && es[j].obj == PodObject(p);
      assert Touches(es[j], p.podIP);
    } else if IsLastOf(es, i, Key(p)) {
      var j :| IsLastTouch(es, j, p.podIP) && !es[j].Delete? && es[j].obj == PodObject(p);
      assert Subject(es[j]) == Some(Key(p));
      assert Touches(es[i], p.podIP);
    }
  }

  lemma InStepIsExact(es: seq<Event>)
    requires forall i :: 0 <= i < |es| && Assigns(es[i]) ==> InStep(es, i)
    ensures Exact(Run(es).ipToSrc, Live(es))
  {
    var index, live := Run(es).ipToSrc, Live(es);
    forall k | k in live && live[k].podIP != ""
      ensures live[k].podIP in index && index[live[k].podIP] == live[k]
    {
      LiveReplay(es, k, live[k]);
      LastTouchReplay(es, live[k].podIP, live[k]);
      var i :| IsLastOf(es, i, k) && !es[i].Delete? && es[i].obj == PodObject(live[k]);
      assert InStep(es, i);
    }
    forall ip | ip in index && ip != ""
      ensures index[ip].podIP == ip && Key(index[ip]) in live && live[Key(index[ip])] == index[ip]
    {
      LastTouchReplay(es, ip, index[ip]);
      LiveReplay(es, Key(index[ip]), index[ip]);
      var i :| IsLastTouch(es, i, ip) && !es[i].Delete? && es[i].obj == PodObject(index[ip]);
      assert InStep(es, i);
    }
  }

  // ----- Runs in which live pods do not share addresses -----

  /** No other live pod holds the address of `p`. */
  ghost predicate AddressFree(live: map<PodKey, Pod>, p: Pod) {
    p.podIP == "" || forall k :: k in live && k != Key(p) ==> live[k].podIP != p.podIP
  }

  /** No event comes with an address that another pod is live at. */
  ghost predicate Unshared(es: seq<Event>) {
    es == [] || (&& Unshared(es[..|es| - 1])
                 && (IsPodEvent(es[|es| - 1]) ==> AddressFree(Live(es[..|es| - 1]), es[|es| - 1].obj.pod)))
  }

  ghost predicate NoneAt(live: map<PodKey, Pod>, ip: string) { forall k :: k in live ==> live[k].podIP != ip }

  /** The event takes a live pod away from `ip` without touching `ip`: a tombstone, or a changed address. */
  predicate Abandons(live: map<PodKey, Pod>, e: Event, ip: string) {
    && ip != "" && !Touches(e, ip)
    && Subject(e).Some? && Subject(e).value in live && live[Subject(e).value].podIP == ip
  }

  /** The event at `i` abandoned `ip`, and nothing has touched `ip` since. */
  ghost predicate Stranded(es: seq<Event>, i: int, ip: string) {
    && 0 <= i < |es| && Abandons(Live(es[..i]), es[i], ip)
    && forall j :: i < j < |es| ==> !Touches(es[j], ip)
  }

  ghost predicate LiveOK(live: map<PodKey, Pod>) {
    && (forall k :: k in live ==> Key(live[k]) == k)
    && (forall k, l :: k in live && l in live && k != l && live[k].podIP != "" ==>
          live[k].podIP != live[l].podIP)
  }

  lemma {:induction false} UnsharedLiveOK(es: seq<Event>)
    requires Unshared(es)
    ensures LiveOK(Live(es))
  {
    if es != [] {
      UnsharedLiveOK(es[..|es| - 1]);
    }
  }

  /** A stranded address of the shorter trace stays stranded exactly when the next event leaves it. */
  lemma StrandedStep(es: seq<Event>, i: int, ip: string)
    requires 0 <= i < |es| - 1
    ensures Stranded(es, i, ip) <==> Stranded(es[..|es| - 1], i, ip) && !Touches(es[|es| - 1], ip)
  {
    var pre := es[..|es| - 1];
    assert pre[..i] == es[..i];
    assert forall j :: 0 <= j < |pre| ==> pre[j] == es[j];
  }

  /** Every live address is indexed with its current pod; live and stranded addresses are disjoint. */
  lemma {:induction false} LiveIsIndexed(es: seq<Event>, k: PodKey)
    requires Unshared(es) && k in Live(es) && Live(es)[k].podIP != ""
    ensures Live(es)[k].podIP in Run(es).ipToSrc
    ensures Run(es).ipToSrc[Live(es)[k].podIP] == Live(es)[k]
  {
    var pre, e := es[..|es| - 1], es[|es| - 1];
    if !(IsPodEvent(e) && Key(e.obj.pod) == k) {
      LiveIsIndexed(pre, k);
    }
  }

  lemma {:induction false} StrandedIsIndexedNotLive(es: seq<Event>, i: int, ip: string)
    requires Unshared(es) && Stranded(es, i, ip)
    ensures ip in Run(es).ipToSrc && NoneAt(Live(es), ip)
  {
    var pre, e := es[..|es| - 1], es[|es| - 1];
    UnsharedLiveOK(pre);
    if i == |es| - 1 {
      LiveIsIndexed(pre, Subject(e).value);
    } else {
      StrandedStep(es, i, ip);
      StrandedIsIndexedNotLive(pre, i, ip);
    }
  }

  /** Whatever is indexed is live, or was left behind. */
  lemma {:induction false} IndexedIsLiveOrStranded(es: seq<Event>, ip: string) returns (i: int)
    requires Unshared(es) && ip != "" && ip in Run(es).ipToSrc
    ensures Stranded(es, i, ip)
         || (var p := Run(es).ipToSrc[ip];
             p.podIP == ip && Key(p) in Live(es) && Live(es)[Key(p)] == p)
  {
    var n := |es| - 1;
    var pre, e := es[..n], es[n];
    if Touches(e, ip) {
      i := n;
    } else {
      i := IndexedIsLiveOrStranded(pre, ip);
      if Stranded(pre, i, ip) {
        StrandedStep(es, i, ip);
      } else if Subject(e) == Some(Key(Run(pre).ipToSrc[ip])) {
        i := n;
        assert Stranded(es, n, ip);
      }
    }
  }

  /**
   * While live pods do not share addresses, the index is exact if and only if each address that
   * was abandoned, to a missed deletion or for another address, has been touched again.
   */
  lemma UnsharedExactIff(es: seq<Event>)
    requires Unshared(es)
    ensures Exact(Run(es).ipToSrc, Live(es)) <==> forall i, ip :: !Stranded(es, i, ip)
  {
    var index, live := Run(es).ipToSrc, Live(es);
    if i, ip :| Stranded(es, i, ip) {
      StrandedIsIndexedNotLive(es, i, ip);
      assert Key(index[ip]) in live ==> live[Key(index[ip])] != index[ip] || index[ip].podIP != ip;
    } else {
      forall k | k in live && live[k].podIP != ""
        ensures live[k].podIP in index && index[live[k].podIP] == live[k]
      {
        LiveIsIndexed(es, k);
      }
      forall ip | ip in index && ip != ""
        ensures index[ip].podIP == ip && Key(index[ip]) in live && live[Key(index[ip])] == index[ip]
      {
        var _ := IndexedIsLiveOrStranded(es, ip);
      }
    }
  }

  /** If no event abandons an address, the index is exact after every step. */
  lemma IndexExact(es: seq<Event>, n: nat)
    requires Unshared(es) && n <= |es|
    requires forall i, ip :: 0 <= i < |es| ==> !Abandons(Live(es[..i]), es[i], ip)
    ensures Exact(Run(es[..n]).ipToSrc, Live(es[..n]))
  {
    UnsharedPrefix(es, n);
    UnsharedExactIff(es[..n]);
    forall i, ip ensures !Stranded(es[..n], i, ip) {
      if 0 <= i < n {
        assert es[..n][..i] == es[..i];
        assert !Abandons(Live(es[..i]), es[i], ip);
      }
    }
  }

  lemma {:induction false} UnsharedPrefix(es: seq<Event>, n: nat)
    requires Unshared(es) && n <= |es|
    ensures Unshared(es[..n])
  {
    if n < |es| {
      UnsharedPrefix(es[..|es| - 1], n);
      assert es[..|es| - 1][..n] == es[..n];
    } else {
      assert es[..n] == es;
    }
  }

  // ----- Runs that obey the informer contract -----

  ghost predicate LegalNext(live: map<PodKey, Pod>, e: Event) {
    match e
    case Add(PodObject(p), _) => Key(p) !in live
    case Update(o, PodObject(p)) => Key(p) in live && o == PodObject(live[Key(p)])
    case Delete(PodObject(p)) => Key(p) in live
    case Delete(DeletedFinalStateUnknown(k)) => k in live
    case _ => true
  }

  /** Per pod: one Add, Updates from the last known state, then a Delete or a tombstone. */
  ghost predicate Legal(es: seq<Event>) {
    es == [] || (Legal(es[..|es| - 1]) && LegalNext(Live(es[..|es| - 1]), es[|es| - 1]))
  }

  lemma TwoSteps(e: Event, f: Event)
    ensures Run([e, f]) == Step(Step(EMPTY, e), f)
    ensures LegalNext(map[], e) && LegalNext(Live([e]), f) ==> Legal([e, f])
  {
    assert [e][..0] == [] && [e, f][..1] == [e];
    assert Run([e]) == Step(Run([]), e);
    assert Legal([]) && Live([]) == map[];
    assert LegalNext(map[], e) ==> Legal([e]);
  }

  /** A single missed deletion is enough to leave a dead pod in the index. */
  lemma TombstoneLeavesDeadPod()
    ensures exists es :: Legal(es) && Live(es) == map[] && "10.0.0.1" in Run(es).ipToSrc
  {
    var p := Pod("ns", "a", "10.0.0.1", 0);
    var add, tombstone := Add(PodObject(p), false), Delete(DeletedFinalStateUnknown(Key(p)));
    var es := [add, tombstone];
    assert es[..1] == [add] && [add][..0] == [];
    assert Live([add]) == map[Key(p) := p];
    TwoSteps(add, tombstone);
    assert Live(es) == map[];
  }

  /** So is an update to another address: the pod as it was stays under the old one. */
  lemma ChangedAddressLeavesOldPod()
    ensures exists es, k :: Legal(es) && k in Live(es) && Live(es)[k].podIP == "10.0.0.2"
              && "10.0.0.1" in Run(es).ipToSrc && Key(Run(es).ipToSrc["10.0.0.1"]) == k
  {
    var p, q := Pod("ns", "a", "10.0.0.1", 0), Pod("ns", "a", "10.0.0.2", 0);
    var add, update := Add(PodObject(p), false), Update(PodObject(p), PodObject(q));
    var es := [add, update];
    assert es[..1] == [add] && [add][..0] == [];
    assert Live([add]) == map[Key(p) := p];
    assert p.podIP[7] != q.podIP[7];
    TwoSteps(add, update);
    assert Live(es)[Key(p)] == q;
  }

  /** A re-list update of an unchanged pod leaves every map and counter as it was. */
  lemma RelistIsIdle(es: seq<Event>, k: PodKey)
    requires Unshared(es) && k in Live(es)
    ensures var p := Live(es)[k];
            var after := es + [Update(PodObject(p), PodObject(p))];
            && (Legal(es) ==> Legal(after)) && Unshared(after) && Live(after) == Live(es)
            && (if p.podIP != "" then Run(after) == Run(es)
                else Run(after) == Run(es).(ipToSrc := Run(es).ipToSrc["" := p]))
  {
    var p := Live(es)[k];
    RelistRun(es, p);
    UnsharedLiveOK(es);
    assert Live(es)[k := p] == Live(es);
    if p.podIP != "" {
      LiveIsIndexed(es, k);
      assert Run(es).ipToSrc[p.podIP := p] == Run(es).ipToSrc;
    }
  }

  lemma RelistRun(es: seq<Event>, p: Pod)
    ensures var e := Update(PodObject(p), PodObject(p));
            && Run(es + [e]) == Run(es).(ipToSrc := Run(es).ipToSrc[p.podIP := p])
            && Live(es + [e]) == Live(es)[Key(p) := p]
            && (Legal(es + [e]) <==> Legal(es) && LegalNext(Live(es), e))
            && (Unshared(es + [e]) <==> Unshared(es) && AddressFree(Live(es), p))
  {
    var after := es + [Update(PodObject(p), PodObject(p))];
    assert after[..|after| - 1] == es;
  }

  predicate IsTombstone(e: Event) { e.Delete? && e.obj.DeletedFinalStateUnknown? }

  function TombstoneWeight(e: Event): int { if IsTombstone(e) then 1 else 0 }

  lemma MapSizes<K, V>(m: map<K, V>, k: K, v: V)
    ensures |m[k := v]| == |m| + if k in m then 0 else 1
    ensures |m - {k}| == |m| - if k in m then 1 else 0
  {
    assert m[k := v].Keys == m.Keys + {k};
    assert (m - {k}).Keys == m.Keys - {k};
  }

  lemma LiveSizeStep(es: seq<Event>)
    requires Legal(es) && es != []
    ensures var e := es[|es| - 1];
            |Live(es)| == |Live(es[..|es| - 1])| + PodWeight(e) - TombstoneWeight(e)
  {
    var live, e := Live(es[..|es| - 1]), es[|es| - 1];
    match e.obj
    case PodObject(p) => MapSizes(live, Key(p), p);
    case DeletedFinalStateUnknown(k) => if e.Delete? { MapSizes(live, k, live[k]); }
    case _ =>
  }

  /** Pods counts the live pods plus those whose deletion was missed. */
  lemma {:induction false} PodsConserved(es: seq<Event>)
    requires Legal(es)
    ensures Sum(es, PodWeight) == |Live(es)| + Sum(es, TombstoneWeight)
    ensures Run(es).pods == Int32(|Live(es)| + Sum(es, TombstoneWeight))
  {
    CountersAreSums(es);
    if es != [] {
      PodsConserved(es[..|es| - 1]);
      LiveSizeStep(es);
    }
  }

  // ----- Confluence -----

  function OfPod(k: PodKey): Event -> bool { e => IsPodEvent(e) && Key(e.obj.pod) == k }

  function Touching(ip: string): Event -> bool { e => Touches(e, ip) }

  function AddingInfo(key: string): Event -> bool { e => AddsInfo(e, key) }

  /** The events of one pod, in order. */
  function Stream(es: seq<Event>, k: PodKey): seq<Event> {
    Filter(es, OfPod(k))
  }

  /** Both traces interleave the same pod streams and the same slice Adds, with any other events. */
  ghost predicate SameStreams(a: seq<Event>, b: seq<Event>) {
    && (forall k :: Stream(a, k) == Stream(b, k))
    && multiset(Filter(a, IsSliceAdd)) == multiset(Filter(b, IsSliceAdd))
  }

  /** Pods with different keys never use the same non-empty address. */
  ghost predicate NoSharing(es: seq<Event>) {
    forall d, e :: d in es && e in es && IsPodEvent(d) && IsPodEvent(e) ==>
      d.obj.pod.podIP == e.obj.pod.podIP != "" ==> Key(d.obj.pod) == Key(e.obj.pod)
  }

  ghost predicate DotFreeNamespaces(es: seq<Event>) {
    forall e :: e in es && IsPodEvent(e) ==> '.' !in e.obj.pod.namespace
  }

  predicate SamePod(d: Event, e: Event) {
    IsPodEvent(d) && IsPodEvent(e) && Key(d.obj.pod) == Key(e.obj.pod)
  }

  lemma SamePodEvents(a: seq<Event>, b: seq<Event>, e: Event)
    requires SameStreams(a, b) && IsPodEvent(e)
    ensures e in a <==> e in b
    ensures multiset(a)[e] == multiset(b)[e]
  {
    var k := Key(e.obj.pod);
    assert Stream(a, k) == Stream(b, k);
    FilterCount(a, OfPod(k), e);
    FilterCount(b, OfPod(k), e);
  }

  /** A selection of pod events that all belong to one pod is the same in both traces. */
  lemma SameSelection(a: seq<Event>, b: seq<Event>, p: Event -> bool)
    requires SameStreams(a, b)
    requires forall e :: p(e) ==> IsPodEvent(e)
    requires forall d, e :: d in a && e in a && p(d) && p(e) ==> SamePod(d, e)
    ensures Filter(a, p) == Filter(b, p)
  {
    forall e | IsPodEvent(e) ensures e in a <==> e in b { SamePodEvents(a, b, e); }
    if e :| e in a && p(e) {
      var k := Key(e.obj.pod);
      var q := OfPod(k);
      FilterTwice(a, p, q);
      FilterTwice(b, p, q);
      assert Filter(a, q) == Stream(a, k) == Stream(b, k) == Filter(b, q);
    } else {
      FilterNone(a, p);
      FilterNone(b, p);
    }
  }

  ghost predicate AgreeAt<K, V>(m: map<K, V>, n: map<K, V>, k: K) {
    (k in m <==> k in n) && (k in m ==> m[k] == n[k])
  }

  /** What the index holds at an address depends on the events touching that address only. */
  lemma {:induction false} IndexAtDependsOnTouches(es: seq<Event>, ip: string)
    ensures AgreeAt(Run(es).ipToSrc, Run(Filter(es, Touching(ip))).ipToSrc, ip)
  {
    if es != [] {
      var pre, e := es[..|es| - 1], es[|es| - 1];
      IndexAtDependsOnTouches(pre, ip);
      if Touches(e, ip) {
        FilterLast(es, Touching(ip));
      }
    }
  }

  lemma {:induction false} InfoAtDependsOnAdds(es: seq<Event>, key: string)
    ensures AgreeAt(Run(es).podInfo, Run(Filter(es, AddingInfo(key))).podInfo, key)
  {
    if es != [] {
      var pre, e := es[..|es| - 1], es[|es| - 1];
      InfoAtDependsOnAdds(pre, key);
      if AddsInfo(e, key) {
        FilterLast(es, AddingInfo(key));
      }
    }
  }

  lemma SameCounters(a: seq<Event>, b: seq<Event>)
    requires SameStreams(a, b)
    ensures Run(a).pods == Run(b).pods
    ensures Run(a).slices == Run(b).slices
    ensures Run(a).sliceIPs == Run(b).sliceIPs
  {
    CountersAreSums(a);
    CountersAreSums(b);
    var pa, pb := Filter(a, IsPodEvent), Filter(b, IsPodEvent);
    forall e ensures multiset(pa)[e] == multiset(pb)[e] {
      FilterCount(a, IsPodEvent, e);
      FilterCount(b, IsPodEvent, e);
      if IsPodEvent(e) { SamePodEvents(a, b, e); }
    }
    assert multiset(pa) == multiset(pb);
    SumFilter(a, PodWeight, IsPodEvent);
    SumFilter(b, PodWeight, IsPodEvent);
    SumPermutation(pa, pb, PodWeight);
    SumFilter(a, SliceWeight, IsSliceAdd);
    SumFilter(b, SliceWeight, IsSliceAdd);
    SumPermutation(Filter(a, IsSliceAdd), Filter(b, IsSliceAdd), SliceWeight);
    SumFilter(a, EndpointWeight, IsSliceAdd);
    SumFilter(b, EndpointWeight, IsSliceAdd);
    SumPermutation(Filter(a, IsSliceAdd), Filter(b, IsSliceAdd), EndpointWeight);
  }

  lemma SameInfoAt(a: seq<Event>, b: seq<Event>, key: string)
    requires SameStreams(a, b) && DotFreeNamespaces(a)
    ensures AgreeAt(Run(a).podInfo, Run(b).podInfo, key)
  {
    forall d, e | d in a && e in a && AddsInfo(d, key) && AddsInfo(e, key) ensures SamePod(d, e) {
      InfoKeyInjective(d.obj.pod, e.obj.pod);
    }
    SameSelection(a, b, AddingInfo(key));
    InfoAtDependsOnAdds(a, key);
    InfoAtDependsOnAdds(b, key);
  }

  lemma SameInfo(a: seq<Event>, b: seq<Event>)
    requires SameStreams(a, b) && DotFreeNamespaces(a)
    ensures Run(a).podInfo == Run(b).podInfo
  {
    forall key { SameInfoAt(a, b, key); }
    EqualMaps(Run(a).podInfo, Run(b).podInfo);
  }

  lemma EqualMaps<K(!new), V>(m: map<K, V>, n: map<K, V>)
    requires forall k :: AgreeAt(m, n, k)
    ensures m == n
  {
    forall k ensures k in m.Keys <==> k in n.Keys { assert AgreeAt(m, n, k); }
    forall k | k in m ensures m[k] == n[k] { assert AgreeAt(m, n, k); }
    assert m.Keys == n.Keys;
  }

  /** Every interleaving of the same streams ends in the same PodInfo, counters and index. */
  lemma Confluence(a: seq<Event>, b: seq<Event>)
    requires SameStreams(a, b) && NoSharing(a) && DotFreeNamespaces(a)
    ensures Run(a).podInfo == Run(b).podInfo
    ensures Run(a).pods == Run(b).pods
    ensures Run(a).slices == Run(b).slices
    ensures Run(a).sliceIPs == Run(b).sliceIPs
    ensures forall ip :: ip != "" ==> AgreeAt(Run(a).ipToSrc, Run(b).ipToSrc, ip)
  {
    SameCounters(a, b);
    forall ip | ip != "" ensures AgreeAt(Run(a).ipToSrc, Run(b).ipToSrc, ip) {
      OrderIrrelevant(a, b, ip);
    }
    SameInfo(a, b);
  }

  // ----- When the order of events matters at an address -----

  /** All events that touch the address are of one pod. */
  ghost predicate OneTouches(es: seq<Event>, ip: string) {
    forall d, e :: d in es && e in es && Touches(d, ip) && Touches(e, ip) ==> SamePod(d, e)
  }

  /** Each pod, taken alone, leaves the address free. */
  ghost predicate AllFree(es: seq<Event>, ip: string) {
    forall k :: ip !in Run(Stream(es, k)).ipToSrc
  }

  ghost predicate AllAgreeAt(a: seq<Event>, ip: string) {
    forall b :: SameStreams(a, b) ==> AgreeAt(Run(a).ipToSrc, Run(b).ipToSrc, ip)
  }

  /**
   * All interleavings of the same streams agree at an address if and only if a single pod ever
   * touches it, or every pod alone leaves it free.
   */
  lemma OrderIrrelevantIff(a: seq<Event>, ip: string)
    ensures AllAgreeAt(a, ip) <==> OneTouches(a, ip) || AllFree(a, ip)
  {
    if OneTouches(a, ip) || AllFree(a, ip) {
      forall b | SameStreams(a, b) ensures AgreeAt(Run(a).ipToSrc, Run(b).ipToSrc, ip) {
        OrderIrrelevant(a, b, ip);
      }
    }
    if AllAgreeAt(a, ip) && !OneTouches(a, ip) {
      var d, e :| d in a && e in a && Touches(d, ip) && Touches(e, ip) && !SamePod(d, e);
      forall k ensures ip !in Run(Stream(a, k)).ipToSrc {
        AgreementIsFree(a, d, e, k, ip);
      }
    }
  }

  lemma OrderIrrelevant(a: seq<Event>, b: seq<Event>, ip: string)
    requires SameStreams(a, b) && (OneTouches(a, ip) || AllFree(a, ip))
    ensures AgreeAt(Run(a).ipToSrc, Run(b).ipToSrc, ip)
  {
    if OneTouches(a, ip) {
      SameSelection(a, b, Touching(ip));
      IndexAtDependsOnTouches(a, ip);
      IndexAtDependsOnTouches(b, ip);
    } else {
      FreeTogether(a, ip);
      forall k ensures ip !in Run(Stream(b, k)).ipToSrc { assert Stream(a, k) == Stream(b, k); }
      FreeTogether(b, ip);
    }
  }

  lemma TouchDecides(s: State, t: State, e: Event, ip: string)
    ensures Touches(e, ip) ==> AgreeAt(Step(s, e).ipToSrc, Step(t, e).ipToSrc, ip)
    ensures !Touches(e, ip) ==> AgreeAt(Step(s, e).ipToSrc, s.ipToSrc, ip)
  {
  }

  lemma StreamSnoc(es: seq<Event>, k: PodKey)
    requires es != []
    ensures var pre, e := es[..|es| - 1], es[|es| - 1];
            Run(Stream(es, k)) == if OfPod(k)(e) then Step(Run(Stream(pre, k)), e) else Run(Stream(pre, k))
  {
    if OfPod(k)(es[|es| - 1]) { FilterLast(es, OfPod(k)); }
  }

  /** The last pod to touch an address decides about it, as if it were alone. */
  lemma {:induction false} LastToucherDecides(es: seq<Event>, i: int, ip: string)
    requires IsLastTouch(es, i, ip)
    ensures AgreeAt(Run(es).ipToSrc, Run(Stream(es, Key(es[i].obj.pod))).ipToSrc, ip)
  {
    var n, k := |es| - 1, Key(es[i].obj.pod);
    var pre := es[..n];
    StreamSnoc(es, k);
    TouchDecides(Run(pre), Run(Stream(pre, k)), es[n], ip);
    TouchDecides(Run(Stream(pre, k)), Run(pre), es[n], ip);
    if i < n {
      assert forall j :: 0 <= j < n ==> pre[j] == es[j];
      LastToucherDecides(pre, i, ip);
    }
  }

  lemma FreeTogether(es: seq<Event>, ip: string)
    requires AllFree(es, ip)
    ensures ip !in Run(es).ipToSrc
  {
    if ip in Run(es).ipToSrc {
      LastTouchReplay(es, ip, Run(es).ipToSrc[ip]);
      var i :| IsLastTouch(es, i, ip);
      LastToucherDecides(es, i, ip);
    }
  }

  /** What a pod alone leaves at an address is a state of that pod, and nothing unless it touches it. */
  lemma StreamStoresItsPod(es: seq<Event>, k: PodKey, ip: string)
    requires ip in Run(Stream(es, k)).ipToSrc
    ensures Key(Run(Stream(es, k)).ipToSrc[ip]) == k
    ensures exists e :: e in es && Touches(e, ip) && OfPod(k)(e)
  {
    var alone := Stream(es, k);
    LastTouchReplay(alone, ip, Run(alone).ipToSrc[ip]);
    var i :| IsLastTouch(alone, i, ip) && alone[i].obj == PodObject(Run(alone).ipToSrc[ip]);
    assert alone[i] in alone;
  }

  function NotOfPod(k: PodKey): Event -> bool { e => !OfPod(k)(e) }

  /** The interleaving in which all events of `k` come last. */
  function MovedLast(es: seq<Event>, k: PodKey): seq<Event> {
    Filter(es, NotOfPod(k)) + Stream(es, k)
  }

  lemma MovedLastFilter(es: seq<Event>, k: PodKey, p: Event -> bool)
    requires (forall e :: p(e) ==> OfPod(k)(e)) || (forall e :: p(e) ==> !OfPod(k)(e))
    ensures Filter(MovedLast(es, k), p) == Filter(es, p)
  {
    var others, own := Filter(es, NotOfPod(k)), Stream(es, k);
    FilterConcat(others, own, p);
    if forall e :: p(e) ==> OfPod(k)(e) {
      FilterNone(others, p);
      FilterTwice(es, p, OfPod(k));
    } else {
      FilterTwice(es, p, NotOfPod(k));
      FilterNone(own, p);
    }
  }

  lemma MovedLastSameStreams(es: seq<Event>, k: PodKey)
    ensures SameStreams(es, MovedLast(es, k))
  {
    forall l ensures Stream(es, l) == Stream(MovedLast(es, k), l) {
      MovedLastFilter(es, k, OfPod(l));
    }
    MovedLastFilter(es, k, IsSliceAdd);
  }

  /** The events that come last decide about an address one of them touches. */
  lemma {:induction false} TailDecides(es: seq<Event>, tail: seq<Event>, e: Event, ip: string)
    requires e in tail && Touches(e, ip)
    ensures AgreeAt(Run(es + tail).ipToSrc, Run(tail).ipToSrc, ip)
  {
    var pre, last := tail[..|tail| - 1], tail[|tail| - 1];
    assert (es + tail)[..|es + tail| - 1] == es + pre;
    if !Touches(last, ip) {
      TailDecides(es, pre, e, ip);
    }
  }

  lemma LastPodDecides(a: seq<Event>, e: Event, ip: string)
    requires e in a && Touches(e, ip) && AllAgreeAt(a, ip)
    ensures AgreeAt(Run(a).ipToSrc, Run(Stream(a, Key(e.obj.pod))).ipToSrc, ip)
  {
    var k := Key(e.obj.pod);
    MovedLastSameStreams(a, k);
    assert e in Stream(a, k);
    TailDecides(Filter(a, NotOfPod(k)), Stream(a, k), e, ip);
    assert AgreeAt(Run(a).ipToSrc, Run(MovedLast(a, k)).ipToSrc, ip);
  }

  /** Two pods cannot agree on an address unless both leave it free; then so does any other. */
  lemma AgreementIsFree(a: seq<Event>, d: Event, e: Event, k: PodKey, ip: string)
    requires AllAgreeAt(a, ip)
    requires d in a && e in a && Touches(d, ip) && Touches(e, ip) && !SamePod(d, e)
    ensures ip !in Run(Stream(a, k)).ipToSrc
  {
    LastPodDecides(a, d, ip);
    LastPodDecides(a, e, ip);
    if ip in Run(a).ipToSrc {
      StreamStoresItsPod(a, Key(d.obj.pod), ip);
      StreamStoresItsPod(a, Key(e.obj.pod), ip);
      assert false;
    }
    if ip in Run(Stream(a, k)).ipToSrc {
      StreamStoresItsPod(a, k, ip);
      var f :| f in a && Touches(f, ip) && OfPod(k)(f);
      LastPodDecides(a, f, ip);
    }
  }

  /** Nothing ever frees the empty address, so it takes a single pod updated without an address. */
  lemma EmptyAddressIff(a: seq<Event>)
    ensures AllAgreeAt(a, "") <==> OneTouches(a, "")
  {
    OrderIrrelevantIff(a, "");
    if d :| d in a && Touches(d, "") {
      NeverFreed(Stream(a, Key(d.obj.pod)), d);
    }
  }

  lemma {:induction false} NeverFreed(es: seq<Event>, e: Event)
    requires e in es && Touches(e, "")
    ensures "" in Run(es).ipToSrc
  {
    if es[|es| - 1] != e {
      NeverFreed(es[..|es| - 1], e);
    }
  }

  lemma SwapFilter<T(!new)>(x: T, y: T, f: T -> bool)
    requires !(f(x) && f(y))
    ensures Filter([x, y], f) == Filter([y, x], f)
  {
    assert [x, y][..1] == [x] && [y, x][..1] == [y] && [x][..0] == [] && [y][..0] == [];
    assert Filter([x], f) == if f(x) then [x] else [];
    assert Filter([y], f) == if f(y) then [y] else [];
  }

  lemma SwapStreams(x: Event, y: Event)
    requires IsPodEvent(x) && IsPodEvent(y) && Key(x.obj.pod) != Key(y.obj.pod)
    ensures SameStreams([x, y], [y, x])
  {
    forall k ensures Stream([x, y], k) == Stream([y, x], k) { SwapFilter(x, y, OfPod(k)); }
    SwapFilter(x, y, IsSliceAdd);
  }

  lemma LastUpdateStays(p: Object, q: Object)
    requires p.PodObject? && q.PodObject? && p.pod.podIP == q.pod.podIP == ""
    ensures var s := Run([Update(p, p), Update(q, q)]); "" in s.ipToSrc && s.ipToSrc[""] == q.pod
  {
    var x, y := Update(p, p), Update(q, q);
    assert [x, y][..1] == [x];
    assert Run([x, y]) == Step(Run([x]), y);
  }

  /** The entry for the empty address is left out of Confluence: there the last update wins. */
  lemma EmptyAddressDependsOnOrder()
    ensures exists a, b :: SameStreams(a, b) && NoSharing(a) && DotFreeNamespaces(a)
              && "" in Run(a).ipToSrc && "" in Run(b).ipToSrc
              && Run(a).ipToSrc[""] != Run(b).ipToSrc[""]
  {
    var p, q := PodObject(Pod("ns", "a", "", 0)), PodObject(Pod("ns", "b", "", 0));
    var a, b := [Update(p, p), Update(q, q)], [Update(q, q), Update(p, p)];
    assert p.pod.name[0] != q.pod.name[0];
    SwapStreams(a[0], a[1]);
    LastUpdateStays(p, q);
    LastUpdateStays(q, p);
    assert NoSharing(a) && DotFreeNamespaces(a);
  }
}
