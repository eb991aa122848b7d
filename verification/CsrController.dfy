/** The signing controller: informer handlers that update cached objects and write status back. */
module CsrController {
  import opened Wrappers
  import opened CsrProtocol

  /** A request object in an informer cache; handlers share it and can change it. */
  class CertificateSigningRequest {
    const name: string
    const uid: nat
    const resourceVersion: nat
    const signerName: string
    const request: Request
    var conditions: seq<string>
    var certificate: Option<string>

    constructor (csr: Csr)
      ensures Value() == csr
    {
      name, uid, resourceVersion := csr.name, csr.uid, csr.resourceVersion;
      signerName, request := csr.signerName, csr.request;
      conditions, certificate := csr.conditions, csr.certificate;
    }

    function Value(): Csr
      reads this
    {
      Csr(name, uid, resourceVersion, signerName, request, conditions, certificate)
    }
  }

  /** How the connection treats a status write. */
  datatype Link = Replied | ReplyLost | Unreachable

  class ApiServer {
    var store: map<string, Csr>
    var nextVersion: nat

    constructor ()
      ensures store == map[] && nextVersion == 0
    {
      store, nextVersion := map[], 0;
    }

    method UpdateStatus(csr: Csr, link: Link) returns (ok: bool)
      modifies this
      ensures ok <==> link.Replied? && Accepts(old(store), csr)
      ensures store == if link.Unreachable? then old(store)
                       else CsrProtocol.UpdateStatus(old(store), csr, old(nextVersion))
      ensures nextVersion == old(nextVersion) + (if !link.Unreachable? && Accepts(old(store), csr) then 1 else 0)
      ensures store != old(store) ==>
                && csr.name in old(store) && old(store)[csr.name].resourceVersion == csr.resourceVersion
                && csr.name in store && store == old(store)[csr.name := store[csr.name]]
                && store[csr.name].certificate == csr.certificate && store[csr.name].conditions == csr.conditions
    {
      if link.Unreachable? || !Accepts(store, csr) {
        return false;
      }
      store := store[csr.name := WithStatus(store[csr.name], csr, nextVersion)];
      nextVersion := nextVersion + 1;
      return link.Replied?;
    }
  }

  method GetCertApprovalCondition(conditions: seq<string>) returns (approved: bool, denied: bool)
    ensures approved <==> "Approved" in conditions
    ensures denied <==> "Denied" in conditions
  {
    approved, denied := false, false;
    for i := 0 to |conditions|
      invariant approved <==> APPROVED in conditions[..i]
      invariant denied <==> DENIED in conditions[..i]
    {
      if conditions[i] == APPROVED {
        approved := true;
      }
      if conditions[i] == DENIED {
        denied := true;
      }
    }
  }

  method IsCertificateRequestApproved(csr: CertificateSigningRequest) returns (yes: bool)
    ensures yes <==> Approved(csr.Value())
    ensures yes <==> "Approved" in csr.conditions && "Denied" !in csr.conditions
  {
    var approved, denied := GetCertApprovalCondition(csr.conditions);
    yes := approved && !denied;
  }

  class K8SSigner {
    const name: string
    const client: ApiServer

    constructor (client: ApiServer, name: string)
      ensures this.client == client && this.name == name
    {
      this.client, this.name := client, name;
    }

    /** `sign` is the outcome of SignCSR and `link` the fate of the write, should they be reached. */
    method OnUpdate(newObj: CertificateSigningRequest, sign: Option<string>, link: Link)
      modifies newObj`certificate, client
      ensures newObj.Value() == Handled(old(newObj.Value()), name, sign)
      ensures newObj.certificate
           == if newObj.request.Parsed? && newObj.signerName == name && old(newObj.certificate) == None && sign.Some?
              then sign else old(newObj.certificate)
      ensures if newObj.Value() == old(newObj.Value()) || link.Unreachable?
              then client.store == old(client.store) && client.nextVersion == old(client.nextVersion)
              else client.store == UpdateStatus(old(client.store), newObj.Value(), old(client.nextVersion))
                   && client.nextVersion
                      == old(client.nextVersion) + (if Accepts(old(client.store), newObj.Value()) then 1 else 0)
    {
      if !newObj.request.Parsed? {
        return;
      }
      if newObj.signerName != name {
        return;
      }
      if newObj.certificate != None {
        return;
      }
      var approved := IsCertificateRequestApproved(newObj);
      if !approved {
        // only logged
      }
      if sign == None {
        return;
      }
      newObj.certificate := sign;
      var _ := client.UpdateStatus(newObj.Value(), link);
    }

    method OnAdd(obj: CertificateSigningRequest, sign: Option<string>, link: Link)
      modifies obj`certificate, client
      ensures obj.Value() == Handled(old(obj.Value()), name, sign)
      ensures obj.certificate
           == if obj.request.Parsed? && obj.signerName == name && old(obj.certificate) == None && sign.Some?
              then sign else old(obj.certificate)
      ensures if obj.Value() == old(obj.Value()) || link.Unreachable?
              then client.store == old(client.store) && client.nextVersion == old(client.nextVersion)
              else client.store == UpdateStatus(old(client.store), obj.Value(), old(client.nextVersion))
                   && client.nextVersion
                      == old(client.nextVersion) + (if Accepts(old(client.store), obj.Value()) then 1 else 0)
    {
      OnUpdate(obj, sign, link);
    }
  }

  lemma WriteUpdates(signers: nat -> string, s: State, obj: nat)
    requires Inv(signers, s) && obj in s.pending
    ensures var t := Next(signers, s, Write(obj));
            && t.cache == s.cache && t.pending == s.pending - {obj}
            && t.store == UpdateStatus(s.store, s.cache[obj].csr, s.nextVersion)
  {
    if Accepts(s.store, s.cache[obj].csr) {
      CommitIsNext(signers, s, obj);
    }
  }

  /** A call that signs is a Handle step, then a Write or a Drop. */
  lemma SigningIsTwoSteps(signers: nat -> string, s: State, obj: nat, certificate: string, link: Link)
    requires Inv(signers, s) && Wants(signers, s, obj) && obj !in s.pending
    ensures var csr := s.cache[obj].csr.(certificate := Some(certificate));
            var t := Next(signers, Sign(s, obj, certificate), if link.Unreachable? then Drop(obj) else Write(obj));
            && t.cache == s.cache[obj := s.cache[obj].(csr := csr)]
            && t.store == (if link.Unreachable? then s.store else UpdateStatus(s.store, csr, s.nextVersion))
            && t.pending == s.pending
  {
    assert s.pending + {obj} - {obj} == s.pending;
    if !link.Unreachable? {
      SignKeeps(signers, s, obj, certificate);
      WriteUpdates(signers, Sign(s, obj, certificate), obj);
    }
  }

  /** What one handler call does is what the protocol does in a Handle and then a Write or a Drop. */
  lemma HandlerIsTwoSteps(signers: nat -> string, s: State, obj: nat, sign: Option<string>, link: Link)
    requires Inv(signers, s) && obj in s.cache && obj !in s.pending
    ensures var csr := Handled(s.cache[obj].csr, signers(s.cache[obj].replica), sign);
            var t := Next(signers, Next(signers, s, Handle(obj, sign)),
                          if link.Unreachable? then Drop(obj) else Write(obj));
            && t.cache == s.cache[obj := s.cache[obj].(csr := csr)]
            && t.store == (if csr == s.cache[obj].csr || link.Unreachable? then s.store
                           else UpdateStatus(s.store, csr, s.nextVersion))
            && t.pending == s.pending
  {
    if Wants(signers, s, obj) && sign.Some? {
      SigningIsTwoSteps(signers, s, obj, sign.value, link);
    } else {
      assert s.cache[obj := s.cache[obj].(csr := s.cache[obj].csr)] == s.cache;
      assert s.pending - {obj} == s.pending;
    }
  }
}
