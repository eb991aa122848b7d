/** Signer replicas, their informer caches and the versioned API server, as one state machine. */
module CsrProtocol {
  import opened Wrappers

  /** What decoding the request bytes yields. */
  datatype Request = NotPem | Unparsable | Parsed(x509: string)

  /** A certificate signing request: metadata, specification and status. */
  datatype Csr = Csr(
    name: string, uid: nat, resourceVersion: nat,
    signerName: string, request: Request,
    conditions: seq<string>, certificate: Option<string>)

  const APPROVED := "Approved"
  const DENIED := "Denied"

  predicate Approved(csr: Csr) { APPROVED in csr.conditions && DENIED !in csr.conditions }

  /** A signer goes on to sign whatever is well formed, addressed to it and still unsigned. */
  predicate WantsSigning(csr: Csr, signer: string) {
    csr.request.Parsed? && csr.signerName == signer && csr.certificate == None
  }

  /** The cached object after the handler ran; `sign` is what SignCSR returned, if anything. */
  function Handled(csr: Csr, signer: string, sign: Option<string>): Csr {
    if WantsSigning(csr, signer) && sign.Some? then csr.(certificate := sign) else csr
  }

  /** UpdateStatus is accepted only for the version the server holds. */
  predicate Accepts(store: map<string, Csr>, csr: Csr) {
    csr.name in store && store[csr.name].resourceVersion == csr.resourceVersion
  }

  /** A status write replaces the status, leaves the rest, and makes a new version. */
  function WithStatus(current: Csr, csr: Csr, version: nat): Csr {
    current.(conditions := csr.conditions, certificate := csr.certificate, resourceVersion := version)
  }

  function UpdateStatus(store: map<string, Csr>, csr: Csr, version: nat): map<string, Csr> {
    if Accepts(store, csr) then store[csr.name := WithStatus(store[csr.name], csr, version)] else store
  }

  /** An object in the informer cache of a replica: as it was delivered, and as it is now. */
  datatype Cached = Cached(replica: nat, delivered: Csr, csr: Csr)
  datatype Issue = Issue(obj: nat, certificate: string)
  datatype StatusWrite = StatusWrite(obj: nat, version: nat)

  /**
   * `history` keeps every version the server ever stored; `pending` holds the objects whose
   * status write is on its way; `issued` and `written` log what the signers did.
   */
  datatype State = State(
    store: map<string, Csr>, history: map<nat, Csr>, nextVersion: nat, nextUid: nat,
    cache: map<nat, Cached>, pending: set<nat>,
    issued: seq<Issue>, written: seq<StatusWrite>)

  const INIT := State(map[], map[], 0, 0, map[], {}, [], [])

  datatype Action =
    | Create(name: string, signerName: string, request: Request)
    // another client changes the status; like the signers, it keeps a certificate once set
    | OtherStatus(name: string, conditions: seq<string>, certificate: Option<string>)
    | Remove(name: string)
    // an informer caches a new object holding any version, current or stale
    | Deliver(replica: nat, version: nat, obj: nat)
    // OnAdd or OnUpdate runs on a cached object, for the first time or again
    | Handle(obj: nat, sign: Option<string>)
    // the status write reaches the server (its reply may still be lost), or never does
    | Write(obj: nat)
    | Drop(obj: nat)

  function Store(s: State, csr: Csr): State {
    s.(store := s.store[csr.name := csr], history := s.history[s.nextVersion := csr],
       nextVersion := s.nextVersion + 1)
  }

  /** A signer put a certificate into a cached object, and is about to write it back. */
  function Sign(s: State, obj: nat, certificate: string): State
    requires obj in s.cache
  {
    s.(cache := s.cache[obj := s.cache[obj].(csr := s.cache[obj].csr.(certificate := Some(certificate)))],
       pending := s.pending + {obj},
       issued := s.issued + [Issue(obj, certificate)])
  }

  /** A signer goes on to sign this object. */
  predicate Wants(signers: nat -> string, s: State, obj: nat) {
    obj in s.cache && WantsSigning(s.cache[obj].csr, signers(s.cache[obj].replica))
  }

  /** The server accepted the status write of an object. */
  function Commit(s: State, obj: nat): State
    requires obj in s.cache && Accepts(s.store, s.cache[obj].csr)
  {
    var csr := s.cache[obj].csr;
    Store(s.(pending := s.pending - {obj}), WithStatus(s.store[csr.name], csr, s.nextVersion))
      .(written := s.written + [StatusWrite(obj, s.nextVersion)])
  }

  /** One step; an action that is not possible changes nothing. `signers` names the replicas. */
  function Next(signers: nat -> string, s: State, a: Action): State {
    match a
    case Create(name, signerName, request) =>
      if name in s.store then s else
      Store(s, Csr(name, s.nextUid, s.nextVersion, signerName, request, [], None)).(nextUid := s.nextUid + 1)
    case OtherStatus(name, conditions, certificate) =>
      if name !in s.store then s
      else if s.store[name].certificate.Some? && s.store[name].certificate != certificate then s
      else Store(s, s.store[name].(conditions := conditions, certificate := certificate,
                                   resourceVersion := s.nextVersion))
    case Remove(name) => s.(store := s.store - {name})
    case Deliver(replica, version, obj) =>
      if version !in s.history || obj in s.cache then s else
      s.(cache := s.cache[obj := Cached(replica, s.history[version], s.history[version])])
    case Handle(obj, sign) =>
      if Wants(signers, s, obj) && sign.Some? then Sign(s, obj, sign.value) else s
    case Write(obj) =>
      if obj !in s.pending || obj !in s.cache then s
      else if Accepts(s.store, s.cache[obj].csr) then Commit(s, obj)
      else s.(pending := s.pending - {obj})
    case Drop(obj) => s.(pending := s.pending - {obj})
  }

  function Run(signers: nat -> string, actions: seq<Action>): State {
    if actions == [] then INIT
    else Next(signers, Run(signers, actions[..|actions| - 1]), actions[|actions| - 1])
  }

  // ----- The invariant -----

  type History = map<nat, Csr>
  type Cache = map<nat, Cached>

  ghost predicate VersionsOK(h: History, nextVersion: nat, nextUid: nat) {
    forall v :: v in h ==> v < nextVersion && h[v].resourceVersion == v && h[v].uid < nextUid
  }

  /** The server holds, for each name, the newest version of one uid. */
  ghost predicate StoreOK(store: map<string, Csr>, h: History) {
    && (forall n :: n in store ==> store[n].resourceVersion in h && h[store[n].resourceVersion] == store[n])
    && (forall n, v :: n in store && v in h && h[v].uid == store[n].uid ==>
          v <= store[n].resourceVersion && h[v].name == n)
  }

  /** Later versions of a request keep its certificate. */
  ghost predicate CertificatesKept(h: History) {
    forall v, w :: v in h && w in h && v <= w && h[v].uid == h[w].uid && h[v].certificate.Some? ==>
      h[w].certificate == h[v].certificate
  }

  /** The replica signed this object after it was delivered. */
  ghost predicate Signed(c: Cached) { c.delivered.certificate == None && c.csr.certificate.Some? }

  ghost predicate CachedOK(signers: nat -> string, h: History, c: Cached) {
    && c.delivered.resourceVersion in h
    && h[c.delivered.resourceVersion] == c.delivered
    && c.csr == c.delivered.(certificate := c.csr.certificate)
    && (c.csr.certificate == c.delivered.certificate
        || (Signed(c) && WantsSigning(c.delivered, signers(c.replica))))
  }

  ghost predicate CacheOK(signers: nat -> string, h: History, cache: Cache) {
    forall o :: o in cache ==> CachedOK(signers, h, cache[o])
  }

  ghost predicate PendingOK(cache: Cache, pending: set<nat>) {
    forall o :: o in pending ==> o in cache && Signed(cache[o])
  }

  ghost predicate IssuedFor(issued: seq<Issue>, i: nat, o: nat) { i < |issued| && issued[i].obj == o }

  /** The log has one issue for each signed object, and no other. */
  ghost predicate IssuedOK(cache: Cache, issued: seq<Issue>) {
    && (forall i :: 0 <= i < |issued| ==>
          var o := issued[i].obj;
          o in cache && Signed(cache[o]) && cache[o].csr.certificate == Some(issued[i].certificate))
    && (forall i, j :: 0 <= i < j < |issued| ==> issued[i].obj != issued[j].obj)
    && (forall o :: o in cache && Signed(cache[o]) ==> exists i :: IssuedFor(issued, i, o))
  }

  /** The version a signer wrote is the object it signed, under a new version number. */
  ghost predicate WrittenAsSigned(h: History, cache: Cache, w: StatusWrite) {
    && w.obj in cache && Signed(cache[w.obj])
    && w.version in h && h[w.version] == cache[w.obj].csr.(resourceVersion := w.version)
  }

  ghost predicate WrittenOK(h: History, cache: Cache, written: seq<StatusWrite>) {
    && (forall i :: 0 <= i < |written| ==> WrittenAsSigned(h, cache, written[i]))
    && (forall i, j :: 0 <= i < j < |written| ==> h[written[i].version].uid != h[written[j].version].uid)
  }

  ghost predicate ServerInv(s: State) {
    && VersionsOK(s.history, s.nextVersion, s.nextUid)
    && StoreOK(s.store, s.history)
    && CertificatesKept(s.history)
  }

  ghost predicate SignerInv(signers: nat -> string, s: State) {
    && CacheOK(signers, s.history, s.cache)
    && PendingOK(s.cache, s.pending)
    && IssuedOK(s.cache, s.issued)
    && WrittenOK(s.history, s.cache, s.written)
  }

  ghost predicate Inv(signers: nat -> string, s: State) { ServerInv(s) && SignerInv(signers, s) }

  // The server's part: a new version is the newest, and keeps the certificate of its predecessor.

  ghost predicate Follows(s: State, csr: Csr) {
    && csr.resourceVersion == s.nextVersion
    && csr.name in s.store && csr.uid == s.store[csr.name].uid
    && (s.store[csr.name].certificate.Some? ==> csr.certificate == s.store[csr.name].certificate)
  }

  lemma UidsDiffer(store: map<string, Csr>, h: History, n: string, m: string)
    requires StoreOK(store, h) && n in store && m in store && n != m
    ensures store[n].uid != store[m].uid
  {
    assert h[store[n].resourceVersion] == store[n];
  }

  lemma StoreKeepsStore(s: State, csr: Csr)
    requires ServerInv(s) && Follows(s, csr)
    ensures StoreOK(Store(s, csr).store, Store(s, csr).history)
  {
    forall n | n in s.store && n != csr.name ensures s.store[n].uid != csr.uid {
      UidsDiffer(s.store, s.history, n, csr.name);
    }
  }

  lemma StoreKeepsCertificates(s: State, csr: Csr)
    requires ServerInv(s) && Follows(s, csr)
    ensures CertificatesKept(Store(s, csr).history)
  {
    var previous := s.store[csr.name];
    forall v | v in s.history && s.history[v].uid == csr.uid && s.history[v].certificate.Some?
      ensures csr.certificate == s.history[v].certificate
    {
      assert s.history[previous.resourceVersion] == previous && v <= previous.resourceVersion;
    }
  }

  lemma StoreKeeps(s: State, csr: Csr)
    requires ServerInv(s) && Follows(s, csr)
    ensures ServerInv(Store(s, csr))
  {
    StoreKeepsStore(s, csr);
    StoreKeepsCertificates(s, csr);
    assert s.history[s.store[csr.name].resourceVersion] == s.store[csr.name];
  }

  lemma CreateKeeps(s: State, csr: Csr)
    requires ServerInv(s)
    requires csr.resourceVersion == s.nextVersion && csr.uid == s.nextUid && csr.name !in s.store
    ensures ServerInv(Store(s, csr).(nextUid := s.nextUid + 1))
  {
    CreateKeepsStore(s, csr);
    CreateKeepsCertificates(s.history, csr, s.nextVersion, s.nextUid);
  }

  lemma CreateKeepsCertificates(h: History, csr: Csr, nextVersion: nat, nextUid: nat)
    requires VersionsOK(h, nextVersion, nextUid) && CertificatesKept(h) && csr.uid == nextUid
    ensures CertificatesKept(h[nextVersion := csr])
  {
  }

  lemma CreateKeepsStore(s: State, csr: Csr)
    requires VersionsOK(s.history, s.nextVersion, s.nextUid) && StoreOK(s.store, s.history)
    requires csr.resourceVersion == s.nextVersion && csr.uid == s.nextUid && csr.name !in s.store
    ensures StoreOK(Store(s, csr).store, Store(s, csr).history)
  {
    forall n | n in s.store ensures s.store[n].uid < s.nextUid {
      assert s.history[s.store[n].resourceVersion] == s.store[n];
    }
  }

  // The signers' part: it depends on the server through the history only, which grows.

  ghost predicate Grows(h: History, k: History) { forall v :: v in h ==> v in k && k[v] == h[v] }

  lemma CacheFrame(signers: nat -> string, h: History, k: History, cache: Cache)
    requires CacheOK(signers, h, cache) && Grows(h, k)
    ensures CacheOK(signers, k, cache)
  {
    forall o | o in cache ensures CachedOK(signers, k, cache[o]) {
      assert CachedOK(signers, h, cache[o]);
    }
  }

  lemma WrittenFrame(h: History, k: History, cache: Cache, cache': Cache, written: seq<StatusWrite>)
    requires WrittenOK(h, cache, written) && Grows(h, k)
    requires forall o :: o in cache && Signed(cache[o]) ==> o in cache' && cache'[o] == cache[o]
    ensures WrittenOK(k, cache', written)
  {
    forall i | 0 <= i < |written|
      ensures WrittenAsSigned(k, cache', written[i])
      ensures h[written[i].version] == k[written[i].version]
    {
      assert WrittenAsSigned(h, cache, written[i]);
    }
  }

  lemma FrameKeeps(signers: nat -> string, s: State, t: State)
    requires SignerInv(signers, s) && Grows(s.history, t.history)
    requires t.cache == s.cache && t.pending <= s.pending && t.issued == s.issued && t.written == s.written
    ensures SignerInv(signers, t)
  {
    CacheFrame(signers, s.history, t.history, s.cache);
    WrittenFrame(s.history, t.history, s.cache, s.cache, s.written);
  }

  lemma DeliverKeeps(signers: nat -> string, s: State, obj: nat, c: Cached)
    requires Inv(signers, s) && obj !in s.cache && CachedOK(signers, s.history, c) && !Signed(c)
    ensures Inv(signers, s.(cache := s.cache[obj := c]))
  {
    var cache := s.cache[obj := c];
    assert CacheOK(signers, s.history, cache);
    assert PendingOK(cache, s.pending);
    IssuedDelivered(s.cache, s.issued, obj, c);
    WrittenFrame(s.history, s.history, s.cache, cache, s.written);
  }

  lemma IssuedDelivered(cache: Cache, issued: seq<Issue>, obj: nat, c: Cached)
    requires IssuedOK(cache, issued) && obj !in cache && !Signed(c)
    ensures IssuedOK(cache[obj := c], issued)
  {
  }

  /** Signing an unsigned object is the first issue for it. */
  lemma IssuedAppend(cache: Cache, issued: seq<Issue>, obj: nat, c: Cached, certificate: string)
    requires IssuedOK(cache, issued) && obj in cache && !Signed(cache[obj])
    requires Signed(c) && c.csr.certificate == Some(certificate)
    ensures IssuedOK(cache[obj := c], issued + [Issue(obj, certificate)])
  {
    var log := issued + [Issue(obj, certificate)];
    assert IssuedFor(log, |issued|, obj);
    forall o | o in cache && Signed(cache[o]) ensures exists i :: IssuedFor(log, i, o) {
      var i :| IssuedFor(issued, i, o);
      assert IssuedFor(log, i, o);
    }
  }

  lemma SignKeeps(signers: nat -> string, s: State, obj: nat, certificate: string)
    requires Inv(signers, s) && Wants(signers, s, obj)
    ensures Inv(signers, Sign(s, obj, certificate))
  {
    var t := Sign(s, obj, certificate);
    var c, d := s.cache[obj], t.cache[obj];
    assert CachedOK(signers, s.history, c);
    assert !Signed(c) && Signed(d) && CachedOK(signers, s.history, d);
    assert CacheOK(signers, s.history, t.cache);
    assert PendingOK(t.cache, t.pending);
    IssuedAppend(s.cache, s.issued, obj, d, certificate);
    WrittenFrame(s.history, s.history, s.cache, t.cache, s.written);
  }

  /** An accepted write is for the version the signer saw, so for a version without certificate. */
  lemma AcceptedIsUnsigned(signers: nat -> string, s: State, obj: nat)
    requires Inv(signers, s) && obj in s.pending && Accepts(s.store, s.cache[obj].csr)
    ensures s.store[s.cache[obj].csr.name] == s.cache[obj].delivered
    ensures s.cache[obj].delivered.certificate == None
  {
    var c := s.cache[obj];
    assert CachedOK(signers, s.history, c);
    assert s.history[s.store[c.csr.name].resourceVersion] == s.store[c.csr.name];
  }

  /** So no earlier status write can have been for the same request. */
  lemma NotWrittenBefore(s: State, name: string, i: nat)
    requires ServerInv(s) && WrittenOK(s.history, s.cache, s.written) && i < |s.written|
    requires name in s.store && s.store[name].certificate == None
    ensures WrittenAsSigned(s.history, s.cache, s.written[i])
    ensures s.history[s.written[i].version].uid != s.store[name].uid
  {
    assert WrittenAsSigned(s.history, s.cache, s.written[i]);
    assert s.history[s.store[name].resourceVersion] == s.store[name];
    assert s.history[s.written[i].version].certificate.Some?;
  }

  lemma WrittenAppend(h: History, cache: Cache, written: seq<StatusWrite>, w: StatusWrite)
    requires WrittenOK(h, cache, written) && WrittenAsSigned(h, cache, w)
    requires forall i :: 0 <= i < |written| ==> h[written[i].version].uid != h[w.version].uid
    ensures WrittenOK(h, cache, written + [w])
  {
    forall i | 0 <= i < |written| + 1 ensures WrittenAsSigned(h, cache, (written + [w])[i]) {
      if i < |written| { assert WrittenAsSigned(h, cache, written[i]); }
    }
  }

  lemma CommitIsNext(signers: nat -> string, s: State, obj: nat)
    requires Inv(signers, s) && obj in s.pending && Accepts(s.store, s.cache[obj].csr)
    ensures var csr := s.cache[obj].csr.(resourceVersion := s.nextVersion);
            && WithStatus(s.store[csr.name], s.cache[obj].csr, s.nextVersion) == csr
            && Follows(s, csr)
            && Commit(s, obj) == Store(s, csr).(pending := s.pending - {obj},
                                                written := s.written + [StatusWrite(obj, s.nextVersion)])
  {
    AcceptedIsUnsigned(signers, s, obj);
    assert CachedOK(signers, s.history, s.cache[obj]);
  }

  lemma CommitKeeps(signers: nat -> string, s: State, obj: nat)
    requires Inv(signers, s) && obj in s.pending && Accepts(s.store, s.cache[obj].csr)
    ensures Inv(signers, Commit(s, obj))
  {
    CommitIsNext(signers, s, obj);
    var c := s.cache[obj];
    var csr := c.csr.(resourceVersion := s.nextVersion);
    var t := Store(s, csr);
    StoreKeeps(s, csr);
    assert SignerInv(signers, t) by { FrameKeeps(signers, s, t); }
    CommitKeepsWritten(signers, s, obj, t.history);
  }

  lemma CommitKeepsWritten(signers: nat -> string, s: State, obj: nat, h: History)
    requires Inv(signers, s) && obj in s.pending && Accepts(s.store, s.cache[obj].csr)
    requires h == s.history[s.nextVersion := s.cache[obj].csr.(resourceVersion := s.nextVersion)]
    requires WrittenOK(h, s.cache, s.written)
    ensures WrittenOK(h, s.cache, s.written + [StatusWrite(obj, s.nextVersion)])
  {
    AcceptedIsUnsigned(signers, s, obj);
    var w := StatusWrite(obj, s.nextVersion);
    assert WrittenAsSigned(h, s.cache, w);
    forall i | 0 <= i < |s.written| ensures h[s.written[i].version].uid != h[w.version].uid {
      NotWrittenBefore(s, s.cache[obj].csr.name, i);
    }
    WrittenAppend(h, s.cache, s.written, w);
  }

  lemma CreateStep(signers: nat -> string, s: State, a: Action)
    requires Inv(signers, s) && a.Create?
    ensures Inv(signers, Next(signers, s, a))
  {
    if a.name !in s.store {
      CreateKeeps(s, Csr(a.name, s.nextUid, s.nextVersion, a.signerName, a.request, [], None));
      FrameKeeps(signers, s, Next(signers, s, a));
    }
  }

  lemma OtherStatusStep(signers: nat -> string, s: State, a: Action)
    requires Inv(signers, s) && a.OtherStatus?
    ensures Inv(signers, Next(signers, s, a))
  {
    if a.name in s.store && (s.store[a.name].certificate == None || s.store[a.name].certificate == a.certificate) {
      assert s.history[s.store[a.name].resourceVersion] == s.store[a.name];
      var csr := s.store[a.name].(conditions := a.conditions, certificate := a.certificate,
                                  resourceVersion := s.nextVersion);
      StoreKeeps(s, csr);
      FrameKeeps(signers, s, Store(s, csr));
    }
  }

  /** Forgetting stored requests or pending writes keeps the invariant. */
  lemma ForgetKeeps(signers: nat -> string, s: State, names: set<string>, objs: set<nat>)
    requires Inv(signers, s)
    ensures Inv(signers, s.(store := s.store - names, pending := s.pending - objs))
  {
  }

  lemma RemoveStep(signers: nat -> string, s: State, a: Action)
    requires Inv(signers, s) && a.Remove?
    ensures Inv(signers, Next(signers, s, a))
  {
    ForgetKeeps(signers, s, {a.name}, {});
    assert s.pending - {} == s.pending;
  }

  lemma DeliverStep(signers: nat -> string, s: State, a: Action)
    requires Inv(signers, s) && a.Deliver?
    ensures Inv(signers, Next(signers, s, a))
  {
    if a.version in s.history && a.obj !in s.cache {
      DeliverKeeps(signers, s, a.obj, Cached(a.replica, s.history[a.version], s.history[a.version]));
    }
  }

  lemma DropKeeps(signers: nat -> string, s: State, obj: nat)
    requires Inv(signers, s)
    ensures Inv(signers, s.(pending := s.pending - {obj}))
  {
    ForgetKeeps(signers, s, {}, {obj});
    assert s.store - {} == s.store;
  }

  lemma WriteStep(signers: nat -> string, s: State, a: Action)
    requires Inv(signers, s) && a.Write?
    ensures Inv(signers, Next(signers, s, a))
  {
    if a.obj in s.pending && Accepts(s.store, s.cache[a.obj].csr) {
      CommitKeeps(signers, s, a.obj);
    } else {
      DropKeeps(signers, s, a.obj);
    }
  }

  lemma NextKeeps(signers: nat -> string, s: State, a: Action)
    requires Inv(signers, s)
    ensures Inv(signers, Next(signers, s, a))
  {
    match a
    case Create(_, _, _) => CreateStep(signers, s, a);
    case OtherStatus(_, _, _) => OtherStatusStep(signers, s, a);
    case Remove(_) => RemoveStep(signers, s, a);
    case Deliver(_, _, _) => DeliverStep(signers, s, a);
    case Handle(obj, sign) => if Wants(signers, s, obj) && sign.Some? { SignKeeps(signers, s, obj, sign.value); }
    case Write(_) => WriteStep(signers, s, a);
    case Drop(obj) => DropKeeps(signers, s, obj);
  }

  lemma {:induction false} RunKeeps(signers: nat -> string, actions: seq<Action>)
    ensures Inv(signers, Run(signers, actions))
  {
    if actions != [] {
      RunKeeps(signers, actions[..|actions| - 1]);
      NextKeeps(signers, Run(signers, actions[..|actions| - 1]), actions[|actions| - 1]);
    }
  }
}
