/** What holds of every run of signer replicas against the versioned API server. */
module CsrSafety {
  import opened Wrappers
  import opened CsrProtocol

  // ----- Certificates on the server -----

  /** No version of a request ever replaces the certificate of an earlier version. */
  lemma CertificateNeverReplaced(signers: nat -> string, actions: seq<Action>, v: nat, w: nat)
    requires var h := Run(signers, actions).history;
             && v in h && w in h && v <= w
             && h[v].uid == h[w].uid && h[v].certificate.Some?
    ensures var h := Run(signers, actions).history; h[w].certificate == h[v].certificate
  {
    RunKeeps(signers, actions);
  }

  lemma NextGrows(signers: nat -> string, s: State, a: Action)
    requires VersionsOK(s.history, s.nextVersion, s.nextUid)
    ensures Grows(s.history, Next(signers, s, a).history)
  {
  }

  lemma {:induction false} HistoryGrows(signers: nat -> string, actions: seq<Action>, n: nat, v: nat)
    requires n <= |actions| && v in Run(signers, actions[..n]).history
    ensures v in Run(signers, actions).history
    ensures Run(signers, actions).history[v] == Run(signers, actions[..n]).history[v]
  {
    if n == |actions| {
      assert actions[..n] == actions;
    } else {
      var pre := actions[..|actions| - 1];
      assert pre[..n] == actions[..n];
      HistoryGrows(signers, pre, n, v);
      RunKeeps(signers, pre);
      NextGrows(signers, Run(signers, pre), actions[|actions| - 1]);
    }
  }

  /** A certificate the server holds at some moment is the one it holds as long as the request lives. */
  lemma StoredCertificateStays(signers: nat -> string, actions: seq<Action>, n: nat, name: string)
    requires n <= |actions|
    requires var before, after := Run(signers, actions[..n]).store, Run(signers, actions).store;
             && name in before && name in after
             && before[name].uid == after[name].uid && before[name].certificate.Some?
    ensures Run(signers, actions).store[name].certificate
         == Run(signers, actions[..n]).store[name].certificate
  {
    RunKeeps(signers, actions);
    RunKeeps(signers, actions[..n]);
    var before := Run(signers, actions[..n]).store[name];
    HistoryGrows(signers, actions, n, before.resourceVersion);
    var h := Run(signers, actions).history;
    assert h[before.resourceVersion] == before;
    CertificateNeverReplaced(signers, actions, before.resourceVersion,
      Run(signers, actions).store[name].resourceVersion);
  }

  // ----- What signers write -----

  /**
   * A version written by a signer is well formed and names that signer, and differs from the
   * unsigned version it was shown only in certificate and version number.
   */
  lemma WritesOwnRequestsAsSeen(signers: nat -> string, actions: seq<Action>, i: nat)
    requires i < |Run(signers, actions).written|
    ensures var s := Run(signers, actions);
            var w := s.written[i];
            && w.obj in s.cache && w.version in s.history
            && (var c, stored := s.cache[w.obj], s.history[w.version];
                && WantsSigning(c.delivered, signers(c.replica))
                && stored.signerName == signers(c.replica)
                && c.delivered.request.Parsed? && c.delivered.certificate == None
                && stored.certificate.Some?
                && stored == c.delivered.(certificate := stored.certificate, resourceVersion := w.version)
                && (Approved(stored) <==> Approved(c.delivered)))
  {
    RunKeeps(signers, actions);
    var s := Run(signers, actions);
    assert WrittenAsSigned(s.history, s.cache, s.written[i]);
    assert CachedOK(signers, s.history, s.cache[s.written[i].obj]);
  }

  /** So do requests on their way to the server, accepted or not, and those certificates were issued for. */
  lemma SignsOwnRequestsOnly(signers: nat -> string, actions: seq<Action>, obj: nat)
    requires var s := Run(signers, actions);
             obj in s.pending || exists i :: IssuedFor(s.issued, i, obj)
    ensures var s := Run(signers, actions);
            && obj in s.cache
            && (var c := s.cache[obj];
                && WantsSigning(c.delivered, signers(c.replica))
                && c.csr.signerName == signers(c.replica)
                && c.delivered.request.Parsed? && c.delivered.certificate == None
                && c.csr.certificate.Some?
                && c.csr == c.delivered.(certificate := c.csr.certificate))
  {
    RunKeeps(signers, actions);
    var s := Run(signers, actions);
    assert CachedOK(signers, s.history, s.cache[obj]);
  }

  /** No version of the request lies between the one the signer read and the one it wrote. */
  ghost predicate NothingBetween(s: State, w: StatusWrite) {
    && w.obj in s.cache && w.version in s.history
    && s.cache[w.obj].delivered.resourceVersion < w.version
    && forall v :: v in s.history && s.history[v].uid == s.history[w.version].uid ==>
         v <= s.cache[w.obj].delivered.resourceVersion || w.version <= v
  }

  ghost predicate NothingLost(s: State) { forall w :: w in s.written ==> NothingBetween(s, w) }

  /** What others recorded between read and write, a denial say, is never overwritten. */
  lemma {:induction false} NothingOverwritten(signers: nat -> string, actions: seq<Action>)
    ensures NothingLost(Run(signers, actions))
  {
    if actions != [] {
      var pre := actions[..|actions| - 1];
      NothingOverwritten(signers, pre);
      LastOverwritesNothing(signers, pre, actions[|pre|]);
    }
  }

  lemma LastOverwritesNothing(signers: nat -> string, pre: seq<Action>, a: Action)
    requires NothingLost(Run(signers, pre))
    ensures NothingLost(Next(signers, Run(signers, pre), a))
  {
    RunKeeps(signers, pre);
    StepOverwritesNothing(signers, Run(signers, pre), a);
  }

  lemma StepOverwritesNothing(signers: nat -> string, s: State, a: Action)
    requires Inv(signers, s) && NothingLost(s)
    ensures NothingLost(Next(signers, s, a))
  {
    var t := Next(signers, s, a);
    OldDeliveriesStay(signers, s, a);
    NewVersionsAreLater(signers, s, a);
    forall w | w in s.written ensures NothingBetween(t, w) {
      StillNothingBetween(s, t, w);
    }
    WrittenSteps(signers, s, a);
    if t.written != s.written {
      CommitReadsNewest(signers, s, a.obj);
    }
  }

  lemma WrittenSteps(signers: nat -> string, s: State, a: Action)
    ensures var t := Next(signers, s, a);
            || t.written == s.written
            || (&& a.Write? && a.obj in s.pending && a.obj in s.cache && Accepts(s.store, s.cache[a.obj].csr)
                && t == Commit(s, a.obj) && t.written == s.written + [StatusWrite(a.obj, s.nextVersion)])
  {
  }

  lemma OldDeliveriesStay(signers: nat -> string, s: State, a: Action)
    ensures var t := Next(signers, s, a);
            forall o :: o in s.cache ==> o in t.cache && t.cache[o].delivered == s.cache[o].delivered
  {
  }

  lemma NewVersionsAreLater(signers: nat -> string, s: State, a: Action)
    requires VersionsOK(s.history, s.nextVersion, s.nextUid)
    ensures var h := Next(signers, s, a).history;
            Grows(s.history, h) && forall v :: v in h && v !in s.history ==> s.nextVersion <= v
  {
    NextGrows(signers, s, a);
  }

  lemma StillNothingBetween(s: State, t: State, w: StatusWrite)
    requires NothingBetween(s, w) && Grows(s.history, t.history)
    requires VersionsOK(s.history, s.nextVersion, s.nextUid)
    requires forall o :: o in s.cache ==> o in t.cache && t.cache[o].delivered == s.cache[o].delivered
    requires forall v :: v in t.history && v !in s.history ==> s.nextVersion <= v
    ensures NothingBetween(t, w)
  {
  }

  lemma CommitReadsNewest(signers: nat -> string, s: State, obj: nat)
    requires Inv(signers, s) && obj in s.pending && Accepts(s.store, s.cache[obj].csr)
    ensures NothingBetween(Commit(s, obj), StatusWrite(obj, s.nextVersion))
  {
    AcceptedIsUnsigned(signers, s, obj);
    CommitIsNext(signers, s, obj);
    assert CachedOK(signers, s.history, s.cache[obj]);
  }

  /** Over all replicas, at most one status write of a signer succeeds per request. */
  lemma OneSuccessfulWrite(signers: nat -> string, actions: seq<Action>, i: nat, j: nat)
    requires i < j < |Run(signers, actions).written|
    ensures var s := Run(signers, actions);
            && s.written[i].version in s.history && s.written[j].version in s.history
            && s.history[s.written[i].version].uid != s.history[s.written[j].version].uid
  {
    RunKeeps(signers, actions);
    var s := Run(signers, actions);
    assert WrittenAsSigned(s.history, s.cache, s.written[i]);
    assert WrittenAsSigned(s.history, s.cache, s.written[j]);
  }

  // ----- Approval -----

  /** This step is a handler that gets as far as signing, past the branch that only logs. */
  predicate Signs(signers: nat -> string, s: State, a: Action) {
    a.Handle? && a.sign.Some? && Wants(signers, s, a.obj)
  }

  /** At step `j` an object is signed only if it is approved at that moment. */
  ghost predicate ApprovedAt(signers: nat -> string, actions: seq<Action>, j: nat)
    requires j < |actions|
  {
    var s := Run(signers, actions[..j]);
    Signs(signers, s, actions[j]) ==> Approved(s.cache[actions[j].obj].csr)
  }

  ghost predicate AllApproved(signers: nat -> string, actions: seq<Action>) {
    forall j :: 0 <= j < |actions| ==> ApprovedAt(signers, actions, j)
  }

  ghost predicate IssuesApproved(s: State) {
    forall i :: 0 <= i < |s.issued| ==>
      s.issued[i].obj in s.cache && Approved(s.cache[s.issued[i].obj].delivered)
  }

  /**
   * Only approved requests get certificates if and only if every object a handler is about to
   * sign is approved at that moment, which is what the branch that only logs tests.
   */
  lemma {:induction false} OnlyApprovedIff(signers: nat -> string, actions: seq<Action>)
    ensures IssuesApproved(Run(signers, actions))
       <==> AllApproved(signers, actions)
  {
    if actions != [] {
      var n := |actions| - 1;
      OnlyApprovedIff(signers, actions[..n]);
      LastApproval(signers, actions, n);
      forall j | 0 <= j < n { PrefixApproval(signers, actions, n, j); }
    }
  }

  lemma LastApproval(signers: nat -> string, actions: seq<Action>, n: nat)
    requires |actions| == n + 1
    ensures IssuesApproved(Run(signers, actions))
       <==> (IssuesApproved(Run(signers, actions[..n])) && ApprovedAt(signers, actions, n))
  {
    RunKeeps(signers, actions[..n]);
    StepApproval(signers, Run(signers, actions[..n]), actions[n]);
  }

  lemma PrefixApproval(signers: nat -> string, actions: seq<Action>, n: nat, j: nat)
    requires j < n <= |actions|
    ensures ApprovedAt(signers, actions[..n], j) <==> ApprovedAt(signers, actions, j)
  {
    assert actions[..n][..j] == actions[..j];
  }

  lemma StepApproval(signers: nat -> string, s: State, a: Action)
    requires Inv(signers, s)
    ensures IssuesApproved(Next(signers, s, a))
       <==> (IssuesApproved(s) && (Signs(signers, s, a) ==> Approved(s.cache[a.obj].csr)))
  {
    if Signs(signers, s, a) {
      assert CachedOK(signers, s.history, s.cache[a.obj]);
      SignApproval(s, a.obj, a.sign.value);
    } else {
      OtherStepsSignNothing(signers, s, a);
    }
  }

  lemma SignApproval(s: State, obj: nat, certificate: string)
    requires IssuedOK(s.cache, s.issued) && obj in s.cache
    ensures IssuesApproved(Sign(s, obj, certificate))
       <==> (IssuesApproved(s) && Approved(s.cache[obj].delivered))
  {
    var t := Sign(s, obj, certificate);
    assert t.issued[|s.issued|].obj == obj;
    assert forall i :: 0 <= i < |s.issued| ==> t.issued[i] == s.issued[i];
    assert forall o :: o in s.cache ==> o in t.cache && t.cache[o].delivered == s.cache[o].delivered;
  }

  lemma OtherStepsSignNothing(signers: nat -> string, s: State, a: Action)
    requires IssuedOK(s.cache, s.issued) && !Signs(signers, s, a)
    ensures IssuesApproved(Next(signers, s, a)) <==> IssuesApproved(s)
  {
    OldDeliveriesStay(signers, s, a);
    SameIssuesApproved(s, Next(signers, s, a));
  }

  lemma SameIssuesApproved(s: State, t: State)
    requires IssuedOK(s.cache, s.issued) && t.issued == s.issued
    requires forall o :: o in s.cache ==> o in t.cache && t.cache[o].delivered == s.cache[o].delivered
    ensures IssuesApproved(t) <==> IssuesApproved(s)
  {
  }

  // ----- One certificate per object -----

  /** Each cached object is signed at most once, however often it is redelivered or a write fails. */
  lemma ObjectSignedOnce(signers: nat -> string, actions: seq<Action>, i: nat, j: nat)
    requires i < |Run(signers, actions).issued| && j < |Run(signers, actions).issued|
    requires Run(signers, actions).issued[i].obj == Run(signers, actions).issued[j].obj
    ensures i == j
  {
    RunKeeps(signers, actions);
  }

  // ----- Writes that fail -----

  /** The object carries a certificate and no write of it is on its way. */
  predicate Spent(s: State, obj: nat) {
    obj in s.cache && s.cache[obj].csr.certificate.Some? && obj !in s.pending
  }

  /** Since `s`, the object was neither signed nor written, nor will it be. */
  ghost predicate SpentSince(s: State, t: State, obj: nat) {
    && Spent(s, obj) && Spent(t, obj) && t.cache[obj] == s.cache[obj]
    && forall i :: 0 <= i < |t.written| && t.written[i].obj == obj ==> i < |s.written| && t.written[i] == s.written[i]
  }

  lemma SpentStep(signers: nat -> string, s: State, t: State, a: Action, obj: nat)
    requires SpentSince(s, t, obj)
    ensures SpentSince(s, Next(signers, t, a), obj)
  {
    if a.Write? && a.obj in t.pending && a.obj in t.cache && Accepts(t.store, t.cache[a.obj].csr) {
      assert Next(signers, t, a).written == t.written + [StatusWrite(a.obj, t.nextVersion)];
    } else {
      assert Next(signers, t, a).written == t.written;
    }
  }

  /** Once its write came to an end, accepted or not, no later step signs or writes the object again. */
  lemma {:induction false} SpentForGood(signers: nat -> string, actions: seq<Action>, more: seq<Action>, obj: nat)
    requires Spent(Run(signers, actions), obj)
    ensures SpentSince(Run(signers, actions), Run(signers, actions + more), obj)
  {
    if more == [] {
      assert actions + more == actions;
    } else {
      var pre, a := more[..|more| - 1], more[|more| - 1];
      assert more == pre + [a];
      SpentForGood(signers, actions, pre, obj);
      RunMore(signers, actions, pre, a);
      SpentStep(signers, Run(signers, actions), Run(signers, actions + pre), a, obj);
    }
  }

  /** Every object of the request that any replica was given is spent. */
  ghost predicate AllSpent(s: State, uid: nat) {
    forall o :: o in s.cache && s.cache[o].delivered.uid == uid ==> Spent(s, o)
  }

  /** The server holds no certificate for the request. */
  ghost predicate Unset(s: State, uid: nat) {
    forall n :: n in s.store && s.store[n].uid == uid ==> s.store[n].certificate == None
  }

  /** The step brings no version of the request to a replica, and is no other client setting its certificate. */
  predicate LeavesAlone(s: State, a: Action, uid: nat) {
    && (a.Deliver? ==> a.version !in s.history || s.history[a.version].uid != uid)
    && (a.OtherStatus? ==> a.name !in s.store || s.store[a.name].uid != uid || a.certificate == None)
  }

  ghost predicate LeftAlone(signers: nat -> string, actions: seq<Action>, n: nat, uid: nat) {
    forall j :: n <= j < |actions| ==> LeavesAlone(Run(signers, actions[..j]), actions[j], uid)
  }

  lemma AllSpentStep(signers: nat -> string, s: State, a: Action, uid: nat)
    requires AllSpent(s, uid) && LeavesAlone(s, a, uid)
    ensures AllSpent(Next(signers, s, a), uid)
  {
  }

  lemma UnsetStep(signers: nat -> string, s: State, a: Action, uid: nat)
    requires Inv(signers, s) && AllSpent(s, uid) && Unset(s, uid) && LeavesAlone(s, a, uid)
    ensures Unset(Next(signers, s, a), uid)
  {
    if a.Write? && a.obj in s.pending && Accepts(s.store, s.cache[a.obj].csr) {
      AcceptedIsUnsigned(signers, s, a.obj);
    }
  }

  /**
   * After the status write of every given object of a request failed, the request stays without
   * a certificate until a replica is given another object of it or another client sets one.
   */
  lemma {:induction false} FailedWriteIsFinal(signers: nat -> string, actions: seq<Action>, n: nat, uid: nat)
    requires n <= |actions| && LeftAlone(signers, actions, n, uid)
    requires AllSpent(Run(signers, actions[..n]), uid) && Unset(Run(signers, actions[..n]), uid)
    ensures AllSpent(Run(signers, actions), uid) && Unset(Run(signers, actions), uid)
  {
    if n == |actions| {
      assert actions[..n] == actions;
    } else {
      var pre := actions[..|actions| - 1];
      forall j: nat | j <= |pre| ensures pre[..j] == actions[..j] {}
      FailedWriteIsFinal(signers, pre, n, uid);
      RunKeeps(signers, pre);
      AllSpentStep(signers, Run(signers, pre), actions[|pre|], uid);
      UnsetStep(signers, Run(signers, pre), actions[|pre|], uid);
    }
  }

  // ----- How many certificates are issued for a request -----

  /** The certificates a replica issued for a request, by position in the log. */
  function Issues(s: State, replica: nat, uid: nat): set<nat> {
    set i: nat | i < |s.issued| && s.issued[i].obj in s.cache
              && s.cache[s.issued[i].obj].replica == replica
              && s.cache[s.issued[i].obj].delivered.uid == uid
  }

  /** The objects of a request that were unsigned when they were delivered to a replica. */
  function UnsignedObjects(s: State, replica: nat, uid: nat): set<nat> {
    set o | o in s.cache && s.cache[o].replica == replica
         && s.cache[o].delivered.uid == uid && s.cache[o].delivered.certificate == None
  }

  function VersionOf(s: State, o: nat): nat {
    if o in s.cache then s.cache[o].delivered.resourceVersion else 0
  }

  function UnsignedVersions(s: State, replica: nat, uid: nat): set<nat> {
    set o | o in UnsignedObjects(s, replica, uid) :: VersionOf(s, o)
  }

  /** No unsigned version of the request was delivered twice to the replica, as a re-list would. */
  ghost predicate DeliveredOnce(s: State, replica: nat, uid: nat) {
    forall o, p :: o in UnsignedObjects(s, replica, uid) && p in UnsignedObjects(s, replica, uid) ==>
      VersionOf(s, o) == VersionOf(s, p) ==> o == p
  }

  lemma {:induction false} InjectionSize<A, B>(xs: set<A>, ys: set<B>, f: A -> B)
    requires forall x :: x in xs ==> f(x) in ys
    requires forall x, y :: x in xs && y in xs && f(x) == f(y) ==> x == y
    ensures |xs| <= |ys|
  {
    if xs != {} {
      var x :| x in xs;
      InjectionSize(xs - {x}, ys - {f(x)}, f);
    }
  }

  lemma {:induction false} ImageSize<A, B>(xs: set<A>, ys: set<B>, f: A -> B)
    requires forall y :: y in ys ==> exists x :: x in xs && f(x) == y
    ensures |ys| <= |xs|
  {
    if xs == {} {
      assert ys == {};
    } else {
      var x :| x in xs;
      ImageSize(xs - {x}, ys - {f(x)}, f);
    }
  }

  function IssuedObject(s: State): nat -> nat {
    i => if 0 <= i < |s.issued| then s.issued[i].obj else 0
  }

  lemma IssuesAreUnsigned(signers: nat -> string, s: State, replica: nat, uid: nat, i: nat)
    requires Inv(signers, s) && i in Issues(s, replica, uid)
    ensures IssuedObject(s)(i) in UnsignedObjects(s, replica, uid)
  {
    assert CachedOK(signers, s.history, s.cache[s.issued[i].obj]);
  }

  /**
   * A replica never issues more certificates for a request than it was given unsigned objects of
   * it, nor than distinct unsigned versions unless one of these was delivered twice.
   */
  lemma IssuanceBound(signers: nat -> string, actions: seq<Action>, replica: nat, uid: nat)
    ensures var s := Run(signers, actions);
            && |Issues(s, replica, uid)| <= |UnsignedObjects(s, replica, uid)|
            && (DeliveredOnce(s, replica, uid) ==>
                  |Issues(s, replica, uid)| <= |UnsignedVersions(s, replica, uid)|)
  {
    RunKeeps(signers, actions);
    var s := Run(signers, actions);
    forall i | i in Issues(s, replica, uid) { IssuesAreUnsigned(signers, s, replica, uid, i); }
    InjectionSize(Issues(s, replica, uid), UnsignedObjects(s, replica, uid), IssuedObject(s));
    if DeliveredOnce(s, replica, uid) {
      InjectionSize(UnsignedObjects(s, replica, uid), UnsignedVersions(s, replica, uid), o => VersionOf(s, o));
    }
  }

  // The bound on versions is exact: handling each unsigned object once breaks it after a re-list.

  ghost predicate Handles(actions: seq<Action>) { forall i :: 0 <= i < |actions| ==> actions[i].Handle? }

  lemma RunMore(signers: nat -> string, actions: seq<Action>, more: seq<Action>, a: Action)
    ensures Run(signers, actions + (more + [a])) == Next(signers, Run(signers, actions + more), a)
  {
    var all := actions + (more + [a]);
    assert all[..|all| - 1] == actions + more;
  }

  /** Handling changes what is signed, not what was delivered. */
  ghost predicate SameDeliveries(s: State, t: State) {
    && t.cache.Keys == s.cache.Keys
    && forall o :: o in s.cache ==>
         && t.cache[o].replica == s.cache[o].replica && t.cache[o].delivered == s.cache[o].delivered
         && (Signed(s.cache[o]) ==> Signed(t.cache[o]))
  }

  lemma HandleKeepsDeliveries(signers: nat -> string, s: State, a: Action)
    requires a.Handle?
    ensures SameDeliveries(s, Next(signers, s, a))
  {
  }

  lemma {:induction false} HandlesKeepDeliveries(signers: nat -> string, actions: seq<Action>, handles: seq<Action>)
    requires Handles(handles)
    ensures SameDeliveries(Run(signers, actions), Run(signers, actions + handles))
  {
    if handles == [] {
      assert actions + handles == actions;
    } else {
      var pre, a := handles[..|handles| - 1], handles[|handles| - 1];
      assert handles == pre + [a];
      HandlesKeepDeliveries(signers, actions, pre);
      RunMore(signers, actions, pre, a);
      HandleKeepsDeliveries(signers, Run(signers, actions + pre), a);
    }
  }

  lemma SameDeliveriesSameSets(s: State, t: State, replica: nat, uid: nat)
    requires SameDeliveries(s, t)
    ensures UnsignedObjects(t, replica, uid) == UnsignedObjects(s, replica, uid)
    ensures UnsignedVersions(t, replica, uid) == UnsignedVersions(s, replica, uid)
    ensures DeliveredOnce(t, replica, uid) <==> DeliveredOnce(s, replica, uid)
  {
    assert forall o :: VersionOf(t, o) == VersionOf(s, o);
    assert UnsignedObjects(t, replica, uid) == UnsignedObjects(s, replica, uid);
  }

  /** All versions of a request have the same specification, so a replica wants all or none of them. */
  ghost predicate SpecsKept(h: History) {
    forall v, w :: v in h && w in h && h[v].uid == h[w].uid ==>
      h[v].signerName == h[w].signerName && h[v].request == h[w].request
  }

  lemma StoreKeepsSpecs(s: State, csr: Csr)
    requires ServerInv(s) && SpecsKept(s.history) && csr.name in s.store
    requires csr == s.store[csr.name].(conditions := csr.conditions, certificate := csr.certificate,
                                       resourceVersion := csr.resourceVersion)
    ensures SpecsKept(Store(s, csr).history)
  {
    assert s.history[s.store[csr.name].resourceVersion] == s.store[csr.name];
  }

  lemma CreateKeepsSpecs(s: State, csr: Csr)
    requires ServerInv(s) && SpecsKept(s.history) && csr.uid == s.nextUid
    ensures SpecsKept(Store(s, csr).history)
  {
  }

  lemma WriteKeepsSpecs(signers: nat -> string, s: State, obj: nat)
    requires Inv(signers, s) && SpecsKept(s.history)
    requires obj in s.pending && Accepts(s.store, s.cache[obj].csr)
    ensures SpecsKept(Commit(s, obj).history)
  {
    CommitIsNext(signers, s, obj);
    AcceptedIsUnsigned(signers, s, obj);
    assert CachedOK(signers, s.history, s.cache[obj]);
    StoreKeepsSpecs(s, s.cache[obj].csr.(resourceVersion := s.nextVersion));
  }

  lemma NextKeepsSpecs(signers: nat -> string, s: State, a: Action)
    requires Inv(signers, s) && SpecsKept(s.history)
    ensures SpecsKept(Next(signers, s, a).history)
  {
    match a
    case Create(name, signerName, request) =>
      CreateKeepsSpecs(s, Csr(name, s.nextUid, s.nextVersion, signerName, request, [], None));
    case OtherStatus(name, conditions, certificate) =>
      if name in s.store {
        assert s.history[s.store[name].resourceVersion] == s.store[name];
        StoreKeepsSpecs(s, s.store[name].(conditions := conditions, certificate := certificate,
                                          resourceVersion := s.nextVersion));
      }
    case Write(obj) =>
      if obj in s.pending && Accepts(s.store, s.cache[obj].csr) { WriteKeepsSpecs(signers, s, obj); }
    case _ =>
  }

  lemma LastKeepsSpecs(signers: nat -> string, pre: seq<Action>, a: Action)
    requires SpecsKept(Run(signers, pre).history)
    ensures SpecsKept(Next(signers, Run(signers, pre), a).history)
  {
    RunKeeps(signers, pre);
    NextKeepsSpecs(signers, Run(signers, pre), a);
  }

  lemma {:induction false} RunKeepsSpecs(signers: nat -> string, actions: seq<Action>)
    ensures SpecsKept(Run(signers, actions).history)
  {
    if actions != [] {
      var pre := actions[..|actions| - 1];
      RunKeepsSpecs(signers, pre);
      LastKeepsSpecs(signers, pre, actions[|pre|]);
    }
  }

  predicate WantsDelivered(signers: nat -> string, s: State, obj: nat) {
    obj in s.cache && WantsSigning(s.cache[obj].delivered, signers(s.cache[obj].replica))
  }

  lemma WantsAllOrNone(signers: nat -> string, actions: seq<Action>, replica: nat, uid: nat, o: nat, p: nat)
    requires var s := Run(signers, actions);
             o in UnsignedObjects(s, replica, uid) && p in UnsignedObjects(s, replica, uid)
    ensures WantsDelivered(signers, Run(signers, actions), o) <==> WantsDelivered(signers, Run(signers, actions), p)
  {
    RunKeeps(signers, actions);
    RunKeepsSpecs(signers, actions);
    var s := Run(signers, actions);
    assert CachedOK(signers, s.history, s.cache[o]) && CachedOK(signers, s.history, s.cache[p]);
  }

  /** The replica would not sign any object of the request. */
  ghost predicate Unwanted(signers: nat -> string, s: State, replica: nat, uid: nat) {
    forall o :: o in UnsignedObjects(s, replica, uid) ==> !WantsDelivered(signers, s, o)
  }

  lemma IssueIsWanted(signers: nat -> string, s: State, replica: nat, uid: nat, i: nat)
    requires Inv(signers, s) && i in Issues(s, replica, uid)
    ensures s.issued[i].obj in UnsignedObjects(s, replica, uid) && WantsDelivered(signers, s, s.issued[i].obj)
  {
    assert CachedOK(signers, s.history, s.cache[s.issued[i].obj]);
  }

  lemma UnwantedIsNotIssued(signers: nat -> string, s: State, replica: nat, uid: nat)
    requires Inv(signers, s) && Unwanted(signers, s, replica, uid)
    ensures Issues(s, replica, uid) == {}
  {
    if i :| i in Issues(s, replica, uid) {
      IssueIsWanted(signers, s, replica, uid, i);
      assert false;
    }
  }

  lemma HandleSigns(signers: nat -> string, s: State, obj: nat, certificate: string)
    requires Inv(signers, s) && WantsDelivered(signers, s, obj)
    ensures Signed(Next(signers, s, Handle(obj, Some(certificate))).cache[obj])
  {
    assert CachedOK(signers, s.history, s.cache[obj]);
  }

  /** Handling each of some objects once leaves all of them signed. */
  lemma {:induction false} HandleEach(signers: nat -> string, actions: seq<Action>, objs: set<nat>)
    returns (handles: seq<Action>)
    requires forall o :: o in objs ==> WantsDelivered(signers, Run(signers, actions), o)
    ensures Handles(handles) && SameDeliveries(Run(signers, actions), Run(signers, actions + handles))
    ensures var t := Run(signers, actions + handles); forall o :: o in objs ==> o in t.cache && Signed(t.cache[o])
  {
    if objs == {} {
      handles := [];
      HandlesKeepDeliveries(signers, actions, handles);
    } else {
      var o :| o in objs;
      var pre := HandleEach(signers, actions, objs - {o});
      var a := Handle(o, Some(""));
      handles := pre + [a];
      RunMore(signers, actions, pre, a);
      RunKeeps(signers, actions + pre);
      OneMoreSigned(signers, Run(signers, actions + pre), o, objs - {o});
      HandlesKeepDeliveries(signers, actions, handles);
    }
  }

  lemma OneMoreSigned(signers: nat -> string, s: State, obj: nat, signed: set<nat>)
    requires Inv(signers, s) && WantsDelivered(signers, s, obj)
    requires forall o :: o in signed ==> o in s.cache && Signed(s.cache[o])
    ensures var t := Next(signers, s, Handle(obj, Some("")));
            forall o :: o in signed + {obj} ==> o in t.cache && Signed(t.cache[o])
  {
    HandleSigns(signers, s, obj, "");
    HandleKeepsDeliveries(signers, s, Handle(obj, Some("")));
  }

  /** The position of the first issue for an object. */
  function IssueOf(issued: seq<Issue>, o: nat): nat {
    if issued == [] || issued[0].obj == o then 0 else 1 + IssueOf(issued[1..], o)
  }

  lemma {:induction false} IssueOfIsFor(issued: seq<Issue>, o: nat, i: nat)
    requires IssuedFor(issued, i, o)
    ensures IssuedFor(issued, IssueOf(issued, o), o)
  {
    if issued[0].obj != o {
      assert issued[1..][i - 1] == issued[i];
      IssueOfIsFor(issued[1..], o, i - 1);
      assert issued[1..][IssueOf(issued[1..], o)] == issued[IssueOf(issued, o)];
    }
  }

  /** Once all unsigned objects are signed, each has its own certificate. */
  lemma AllSignedCount(signers: nat -> string, s: State, replica: nat, uid: nat)
    requires Inv(signers, s)
    requires forall o :: o in UnsignedObjects(s, replica, uid) ==> Signed(s.cache[o])
    ensures |UnsignedObjects(s, replica, uid)| <= |Issues(s, replica, uid)|
  {
    forall o | o in UnsignedObjects(s, replica, uid) ensures IssueOf(s.issued, o) in Issues(s, replica, uid) {
      var i :| IssuedFor(s.issued, i, o);
      IssueOfIsFor(s.issued, o, i);
    }
    forall o, p | o in UnsignedObjects(s, replica, uid) && p in UnsignedObjects(s, replica, uid)
                  && IssueOf(s.issued, o) == IssueOf(s.issued, p)
      ensures o == p
    {
      var i :| IssuedFor(s.issued, i, o);
      var j :| IssuedFor(s.issued, j, p);
      IssueOfIsFor(s.issued, o, i);
      IssueOfIsFor(s.issued, p, j);
    }
    InjectionSize(UnsignedObjects(s, replica, uid), Issues(s, replica, uid), o => IssueOf(s.issued, o));
  }

  lemma RelistLosesVersions(s: State, replica: nat, uid: nat)
    requires !DeliveredOnce(s, replica, uid)
    ensures |UnsignedVersions(s, replica, uid)| < |UnsignedObjects(s, replica, uid)|
  {
    var objs := UnsignedObjects(s, replica, uid);
    var o, p :| o in objs && p in objs && VersionOf(s, o) == VersionOf(s, p) && o != p;
    forall v | v in UnsignedVersions(s, replica, uid) ensures exists y :: y in objs - {p} && VersionOf(s, y) == v {
      var x :| x in objs && VersionOf(s, x) == v;
      assert (if x == p then o else x) in objs - {p};
    }
    ImageSize(objs - {p}, UnsignedVersions(s, replica, uid), x => VersionOf(s, x));
  }

  ghost predicate BoundHolds(s: State, replica: nat, uid: nat) {
    |Issues(s, replica, uid)| <= |UnsignedVersions(s, replica, uid)|
  }

  ghost predicate BoundStays(signers: nat -> string, actions: seq<Action>, replica: nat, uid: nat) {
    forall handles :: Handles(handles) ==> BoundHolds(Run(signers, actions + handles), replica, uid)
  }

  /**
   * No further handling makes a replica issue more certificates for a request than it was given
   * distinct unsigned versions, if and only if none of these was delivered twice or it wants none.
   */
  lemma IssuanceBoundIff(signers: nat -> string, actions: seq<Action>, replica: nat, uid: nat)
    ensures BoundStays(signers, actions, replica, uid)
       <==> (DeliveredOnce(Run(signers, actions), replica, uid)
             || Unwanted(signers, Run(signers, actions), replica, uid))
  {
    var s := Run(signers, actions);
    if DeliveredOnce(s, replica, uid) || Unwanted(signers, s, replica, uid) {
      forall handles | Handles(handles) ensures BoundHolds(Run(signers, actions + handles), replica, uid) {
        HandlesKeepBound(signers, actions, handles, replica, uid);
      }
    } else {
      var handles := HandleAll(signers, actions, replica, uid);
    }
  }

  lemma HandlesKeepBound(signers: nat -> string, actions: seq<Action>, handles: seq<Action>, replica: nat, uid: nat)
    requires Handles(handles)
    requires var s := Run(signers, actions); DeliveredOnce(s, replica, uid) || Unwanted(signers, s, replica, uid)
    ensures BoundHolds(Run(signers, actions + handles), replica, uid)
  {
    var s, t := Run(signers, actions), Run(signers, actions + handles);
    HandlesKeepDeliveries(signers, actions, handles);
    SameDeliveriesSameSets(s, t, replica, uid);
    if DeliveredOnce(s, replica, uid) {
      IssuanceBound(signers, actions + handles, replica, uid);
    } else {
      RunKeeps(signers, actions + handles);
      UnwantedIsNotIssued(signers, t, replica, uid);
    }
  }

  /** Handling every unsigned object once breaks the bound after a re-list. */
  lemma HandleAll(signers: nat -> string, actions: seq<Action>, replica: nat, uid: nat) returns (handles: seq<Action>)
    requires var s := Run(signers, actions); !DeliveredOnce(s, replica, uid) && !Unwanted(signers, s, replica, uid)
    ensures Handles(handles) && !BoundHolds(Run(signers, actions + handles), replica, uid)
  {
    var s := Run(signers, actions);
    var p :| p in UnsignedObjects(s, replica, uid) && WantsDelivered(signers, s, p);
    forall o | o in UnsignedObjects(s, replica, uid) ensures WantsDelivered(signers, s, o) {
      WantsAllOrNone(signers, actions, replica, uid, o, p);
    }
    handles := HandleEach(signers, actions, UnsignedObjects(s, replica, uid));
    var t := Run(signers, actions + handles);
    SameDeliveriesSameSets(s, t, replica, uid);
    RunKeeps(signers, actions + handles);
    AllSignedCount(signers, t, replica, uid);
    RelistLosesVersions(t, replica, uid);
  }

  // ----- Concrete runs -----

  lemma RunOfThree(signers: nat -> string, a: Action, b: Action, c: Action)
    ensures Run(signers, [a, b, c]) == Next(signers, Next(signers, Next(signers, INIT, a), b), c)
  {
    assert [a][..0] == [] && [a, b][..1] == [a] && [a, b, c][..2] == [a, b];
    assert Run(signers, [a]) == Next(signers, INIT, a);
    assert Run(signers, [a, b]) == Next(signers, Run(signers, [a]), b);
  }

  const REQUEST := Parsed("x")

  function Unsigned(signers: nat -> string): Csr { Csr("r", 0, 0, signers(0), REQUEST, [], None) }

  function AfterSigning(signers: nat -> string, cert: string): State {
    var csr := Unsigned(signers);
    INIT.(store := map["r" := csr], history := map[0 := csr], nextVersion := 1, nextUid := 1,
          cache := map[0 := Cached(0, csr, csr.(certificate := Some(cert)))],
          pending := {0}, issued := [Issue(0, cert)])
  }

  /** A request is created, delivered and handled. */
  lemma SigningRun(signers: nat -> string, cert: string) returns (actions: seq<Action>)
    ensures |actions| == 3 && Run(signers, actions) == AfterSigning(signers, cert)
  {
    var a0, a1, a2 := Create("r", signers(0), REQUEST), Deliver(0, 0, 0), Handle(0, Some(cert));
    actions := [a0, a1, a2];
    RunOfThree(signers, a0, a1, a2);
    var csr := Unsigned(signers);
    var s1 := INIT.(store := map["r" := csr], history := map[0 := csr], nextVersion := 1, nextUid := 1);
    var s2 := s1.(cache := map[0 := Cached(0, csr, csr)]);
    assert Next(signers, INIT, a0) == s1;
    assert Next(signers, s1, a1) == s2;
    assert Next(signers, s2, a2) == AfterSigning(signers, cert);
  }

  /** The approval check only logs: a request nobody approved still gets a certificate. */
  lemma UnapprovedIsSigned(signers: nat -> string, cert: string)
    ensures exists actions ::
              && "r" in Run(signers, actions).store
              && !Approved(Run(signers, actions).store["r"])
              && Run(signers, actions).store["r"].certificate == Some(cert)
  {
    var pre := SigningRun(signers, cert);
    var all, s := pre + [Write(0)], AfterSigning(signers, cert);
    assert all[..|all| - 1] == pre && all[|all| - 1] == Write(0);
    assert Accepts(s.store, s.cache[0].csr);
    assert Run(signers, all) == Commit(s, 0);
    assert Run(signers, all).store["r"].certificate == Some(cert);
    assert !Approved(Run(signers, all).store["r"]);
  }

  /** A run that gets there: the only write is lost, and a certificate was issued that nobody will see. */
  lemma LostWriteIsFinal(signers: nat -> string, cert: string) returns (actions: seq<Action>)
    ensures var s := Run(signers, actions);
            s.issued == [Issue(0, cert)] && "r" in s.store && s.store["r"].uid == 0 && AllSpent(s, 0) && Unset(s, 0)
    ensures forall more :: LeftAlone(signers, actions + more, |actions|, 0) ==>
              Unset(Run(signers, actions + more), 0)
  {
    var pre := SigningRun(signers, cert);
    actions := pre + [Drop(0)];
    assert actions[..|actions| - 1] == pre;
    var s := Run(signers, actions);
    assert s == AfterSigning(signers, cert).(pending := {});
    forall more | LeftAlone(signers, actions + more, |actions|, 0)
      ensures Unset(Run(signers, actions + more), 0)
    {
      assert (actions + more)[..|actions|] == actions;
      FailedWriteIsFinal(signers, actions + more, |actions|, 0);
    }
  }

  /** A re-list delivers the same version again as a new object, and it is signed again. */
  lemma RelistIssuesTwice(signers: nat -> string, cert: string, again: string)
    ensures exists actions ::
              |UnsignedVersions(Run(signers, actions), 0, 0)| == 1 && |Issues(Run(signers, actions), 0, 0)| == 2
  {
    var actions := RelistRun(signers, cert, again);
    TwiceCounted(Run(signers, actions));
  }

  lemma RelistRun(signers: nat -> string, cert: string, again: string) returns (actions: seq<Action>)
    ensures Run(signers, actions) == Sign(AfterRelist(signers, cert), 1, again)
  {
    var pre := SigningRun(signers, cert);
    var deliver, handle := Deliver(0, 0, 1), Handle(1, Some(again));
    assert pre + [deliver] == pre + ([] + [deliver]) && pre + [] == pre;
    RunMore(signers, pre, [], deliver);
    assert Run(signers, pre + [deliver]) == AfterRelist(signers, cert);
    RunMore(signers, pre, [deliver], handle);
    actions := pre + ([deliver] + [handle]);
  }

  function AfterRelist(signers: nat -> string, cert: string): State {
    var s, csr := AfterSigning(signers, cert), Unsigned(signers);
    s.(cache := s.cache[1 := Cached(0, csr, csr)])
  }

  predicate FirstVersion(c: Cached) {
    c.replica == 0 && c.delivered.uid == 0 && c.delivered.resourceVersion == 0 && c.delivered.certificate == None
  }

  lemma TwiceCounted(u: State)
    requires forall o :: o in u.cache ==> FirstVersion(u.cache[o])
    requires |u.issued| == 2 && u.issued[0].obj in u.cache && u.issued[1].obj in u.cache
    ensures |UnsignedVersions(u, 0, 0)| == 1 && |Issues(u, 0, 0)| == 2
  {
    assert 0 in Issues(u, 0, 0) && 1 in Issues(u, 0, 0);
    TwoPositions(Issues(u, 0, 0));
    var o := u.issued[0].obj;
    assert o in UnsignedObjects(u, 0, 0) && VersionOf(u, o) == 0;
    OneVersion(UnsignedVersions(u, 0, 0));
  }

  lemma TwoPositions(issues: set<nat>)
    requires forall i :: i in issues <==> 0 <= i < 2
    ensures |issues| == 2
  {
    assert issues == {0, 1};
  }

  lemma OneVersion(versions: set<nat>)
    requires forall v :: v in versions <==> v == 0
    ensures |versions| == 1
  {
    assert versions == {0};
  }
}
