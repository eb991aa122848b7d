/** The informer handlers that maintain the pod/IP index in place. */
module K8SDataHandlers {
  import opened PodIndex

  class K8SData {
    var ipToSrc: map<string, Pod>
    var podInfo: map<string, Pod>
    var synced: bool
    var pods: int
    var slices: int
    var sliceIPs: int
    /** The events handled so far. */
    ghost var trace: seq<Event>

    ghost predicate Valid()
      reads this
    {
      Contents() == Run(trace)
    }

    ghost function Contents(): State
      reads this
    {
      State(ipToSrc, podInfo, pods, slices, sliceIPs)
    }

    /** When what the handlers maintain is the inverse of the live pods, whatever was handled. */
    lemma IndexIsLiveIff()
      requires Valid()
      ensures Exact(ipToSrc, Live(trace))
         <==> forall i :: 0 <= i < |trace| && Assigns(trace[i]) ==> InStep(trace, i)
      ensures Unshared(trace) ==>
                (Exact(ipToSrc, Live(trace)) <==> forall i, ip :: !Stranded(trace, i, ip))
    {
      IndexExactIff(trace);
      if Unshared(trace) {
        UnsharedExactIff(trace);
      }
    }

    constructor ()
      ensures Valid() && trace == [] && Contents() == EMPTY && !synced
    {
      trace := [];
      ipToSrc, podInfo, synced := map[], map[], false;
      pods, slices, sliceIPs := 0, 0, 0;
    }

    method OnAdd(obj: Object, isInInitialList: bool)
      modifies this
      ensures old(Valid()) ==> Valid()
      ensures trace == old(trace) + [Add(obj, isInInitialList)]
      ensures Contents() == Step(old(Contents()), Add(obj, isInInitialList))
      ensures podInfo == if !obj.PodObject? then old(podInfo)
                         else old(podInfo)[obj.pod.name + "." + obj.pod.namespace := obj.pod]
      ensures ipToSrc == if !obj.PodObject? || obj.pod.podIP == "" then old(ipToSrc)
                         else old(ipToSrc)[obj.pod.podIP := obj.pod]
      ensures pods == if obj.PodObject? then Int32(old(pods) + 1) else old(pods)
      ensures slices == if obj.SliceObject? then Int32(old(slices) + 1) else old(slices)
      ensures sliceIPs == if obj.SliceObject? then Int32(old(sliceIPs) + Int32(obj.endpoints)) else old(sliceIPs)
      ensures synced == old(synced)
    {
      trace := trace + [Add(obj, isInInitialList)];
      assert trace[..|trace| - 1] == old(trace);
      match obj
      case SliceObject(endpoints) =>
        slices := Int32(slices + 1);
        sliceIPs := Int32(sliceIPs + Int32(endpoints));
      case PodObject(v) =>
        podInfo := podInfo[v.name + "." + v.namespace := v];
        pods := Int32(pods + 1);
        var ip := v.podIP;
        if ip != "" {
          ipToSrc := ipToSrc[ip := v];
        }
      case _ =>
    }

    /** The handler asserts that the old object is a pod whenever the new one is. */
    method OnUpdate(oldObj: Object, newObj: Object)
      requires newObj.PodObject? ==> oldObj.PodObject?
      modifies this
      ensures old(Valid()) ==> Valid()
      ensures trace == old(trace) + [Update(oldObj, newObj)]
      ensures Contents() == Step(old(Contents()), Update(oldObj, newObj))
      ensures Contents()
           == old(Contents()).(ipToSrc := if newObj.PodObject? then old(ipToSrc)[newObj.pod.podIP := newObj.pod]
                                          else old(ipToSrc))
      ensures synced == old(synced)
    {
      trace := trace + [Update(oldObj, newObj)];
      assert trace[..|trace| - 1] == old(trace);
      match newObj
      case PodObject(v) =>
        var ip := v.podIP;
        ipToSrc := ipToSrc[ip := v];
      case _ =>
    }

    method OnDelete(obj: Object)
      modifies this
      ensures old(Valid()) ==> Valid()
      ensures trace == old(trace) + [Delete(obj)]
      ensures Contents() == Step(old(Contents()), Delete(obj))
      ensures pods == if obj.PodObject? then Int32(old(pods) - 1) else old(pods)
      ensures ipToSrc == if obj.PodObject? && obj.pod.podIP != "" then old(ipToSrc) - {obj.pod.podIP}
                         else old(ipToSrc)
      ensures podInfo == old(podInfo) && slices == old(slices) && sliceIPs == old(sliceIPs)
      ensures synced == old(synced)
    {
      trace := trace + [Delete(obj)];
      assert trace[..|trace| - 1] == old(trace);
      match obj
      case PodObject(v) =>
        pods := Int32(pods - 1);
        var ip := v.podIP;
        if ip != "" {
          ipToSrc := ipToSrc - {ip};
        }
      case _ =>
    }
  }
}
