/** Pairing two nodes: one side offers a secret together with a pairing code, the
  other spends the code and stores the secret, then the first stores it too. */
module Pairing {
  import opened Wrappers
  import opened Bytes
  import opened Text
  import opened Signatures
  import Nonces

  /** `laboratory` is the one the code was issued for. A code is named by its digest. */
  datatype Code = Code(laboratory: Id, expiresAt: int, consumedAt: Option<int>)

  datatype NodeState = NodeState(
    id: Id,
    remotes: map<Id, RemoteNode>,
    trusts: map<TrustKey, Status>,
    codes: map<string, Code>)

  /** What the requesting node sends. */
  datatype Offer = Offer(
    code: string,
    requesterNode: Id,
    requesterUrl: string,
    requesterLaboratory: Id,
    secret: string,
    tlsPin: Option<string>)

  /** What the accepting node answers. */
  datatype Answer = Answer(node: Id, laboratory: Id, tlsPin: Option<string>, keyVersion: int)

  datatype FederationError = Validation | Conflict | BadGateway

  // ---------------------------------------------------------------------------
  // stored rows
  // ---------------------------------------------------------------------------

  predicate LowerHex(c: char) {
    '0' <= c <= '9' || 'a' <= c <= 'f'
  }

  predicate Hex(c: char) {
    LowerHex(c) || 'A' <= c <= 'F'
  }

  /** The pins the requesting side lets in, in either case of letters. */
  predicate ValidPin(pin: Option<string>) {
    pin.Some? ==> |pin.value| == 64 && forall i :: 0 <= i < 64 ==> Hex(pin.value[i])
  }

  /** The pins the table holds. */
  predicate StorablePin(pin: Option<string>) {
    pin.Some? ==> |pin.value| == 64 && forall i :: 0 <= i < 64 ==> LowerHex(pin.value[i])
  }

  predicate BlankSecret(secret: string) {
    Trim(secret) == ""
  }

  predicate UrlIsFree(remotes: map<Id, RemoteNode>, node: Id, baseUrl: string) {
    forall other :: other in remotes && other != node ==> remotes[other].baseUrl != baseUrl
  }

  predicate RowAllowed(row: RemoteNode) {
    row.baseUrl != "" && row.secret != "" && row.keyVersion > 0 && StorablePin(row.tlsPin)
  }

  /** What the table of known nodes guarantees: rows pass its checks, and no two share a base URL. */
  predicate RowsFit(remotes: map<Id, RemoteNode>) {
    forall node :: node in remotes ==> RowAllowed(remotes[node]) && UrlIsFree(remotes, node, remotes[node].baseUrl)
  }

  /** A node that is already known is refreshed, under a base URL no other node has. */
  function UpsertedRemote(remotes: map<Id, RemoteNode>, node: Id, baseUrl: string, secret: string,
                          tlsPin: Option<string>, keyVersion: int): Result<map<Id, RemoteNode>, FederationError>
  {
    var row := RemoteNode(baseUrl, secret, tlsPin, Active, keyVersion);
    if !RowAllowed(row) then Failure(Validation)
    else if !UrlIsFree(remotes, node, baseUrl) then Failure(Conflict)
    else Success(remotes[node := row])
  }

  lemma UpsertKeepsRows(remotes: map<Id, RemoteNode>, node: Id, baseUrl: string, secret: string,
                        tlsPin: Option<string>, keyVersion: int)
    requires RowsFit(remotes)
    ensures var upserted := UpsertedRemote(remotes, node, baseUrl, secret, tlsPin, keyVersion);
            upserted.Success? ==> RowsFit(upserted.value)
  {
  }

  predicate Consumable(codes: map<string, Code>, code: string, now: int) {
    code in codes && codes[code].consumedAt.None? && codes[code].expiresAt > now
  }

  /** The accepting transaction after its code is spent: node and trust are upserted. */
  function Registered(n: NodeState, offer: Offer): Result<NodeState, FederationError>
    requires offer.code in n.codes
  {
    var upserted := UpsertedRemote(n.remotes, offer.requesterNode, offer.requesterUrl, offer.secret, None, 1);
    if upserted.Failure? then Failure(upserted.error)
    else
      Success(n.(remotes := upserted.value,
                 trusts := n.trusts[TrustKey(n.codes[offer.code].laboratory, offer.requesterNode,
                                             offer.requesterLaboratory) := Active]))
  }

  function Spent(n: NodeState, code: string, now: int): NodeState
    requires code in n.codes
  {
    n.(codes := n.codes[code := n.codes[code].(consumedAt := Some(now))])
  }

  /** The accepting side of a pairing. */
  function Accepted(n: NodeState, offer: Offer, now: int): Result<NodeState, FederationError> {
    if BlankSecret(offer.secret) || !Consumable(n.codes, offer.code, now) then Failure(Validation)
    else Registered(Spent(n, offer.code, now), offer)
  }

  /** The requesting side, once it has an answer. */
  function Established(n: NodeState, remoteUrl: string, remoteLaboratory: Id, offer: Offer, answer: Answer)
    : Result<NodeState, FederationError>
  {
    if answer.laboratory != remoteLaboratory then Failure(BadGateway)
    else
      var pin := if answer.tlsPin.Some? then answer.tlsPin else offer.tlsPin;
      var upserted := UpsertedRemote(n.remotes, answer.node, remoteUrl, offer.secret, pin, answer.keyVersion);
      if upserted.Failure? then Failure(upserted.error)
      else
        Success(n.(remotes := upserted.value,
                   trusts := n.trusts[TrustKey(offer.requesterLaboratory, answer.node, remoteLaboratory) := Active]))
  }

  function AnswerTo(n: NodeState, offer: Offer): Answer
    requires offer.code in n.codes
  {
    Answer(n.id, n.codes[offer.code].laboratory, offer.tlsPin, 1)
  }

  // ---------------------------------------------------------------------------
  // what the two sides come to
  // ---------------------------------------------------------------------------

  predicate AllChars(s: string, upperCase: bool) {
    forall c :: c in s ==> '0' <= c <= '9' || 'a' <= c <= 'f' || (upperCase && 'A' <= c <= 'F')
  }

  /** Pins are 64 hexadecimal digits; the table takes them in lower case only. */
  lemma PinsMean(pin: string)
    ensures ValidPin(Some(pin)) <==> |pin| == 64 && AllChars(pin, true)
    ensures StorablePin(Some(pin)) <==> |pin| == 64 && AllChars(pin, false)
    ensures ValidPin(None) && StorablePin(None)
  {
    if |pin| == 64 {
      forall i | 0 <= i < 64 && AllChars(pin, true) ensures Hex(pin[i]) {
        assert pin[i] in pin;
      }
      forall i | 0 <= i < 64 && AllChars(pin, false) ensures LowerHex(pin[i]) {
        assert pin[i] in pin;
      }
    }
  }

  /** An acceptance succeeds exactly if the secret is not blank, the code is there, unspent and not expired, and
    the requester's base URL is one that no other node has. Then the code is spent, the requester is known by
    what it sent, and the laboratory of the code trusts the requester's. */
  lemma AcceptanceMeans(n: NodeState, offer: Offer, now: int)
    ensures var r := Accepted(n, offer, now);
            && (r.Success? <==>
                  && Trim(offer.secret) != ""
                  && offer.code in n.codes
                  && n.codes[offer.code].consumedAt == None && now < n.codes[offer.code].expiresAt
                  && offer.requesterUrl != ""
                  && forall k :: k in n.remotes && k != offer.requesterNode ==>
                                   n.remotes[k].baseUrl != offer.requesterUrl)
            && (r.Success? ==>
                  var code := n.codes[offer.code];
                  r.value == NodeState(
                    n.id,
                    n.remotes[offer.requesterNode := RemoteNode(offer.requesterUrl, offer.secret, None, Active, 1)],
                    n.trusts[TrustKey(code.laboratory, offer.requesterNode, offer.requesterLaboratory) := Active],
                    n.codes[offer.code := Code(code.laboratory, code.expiresAt, Some(now))]))
            && (r.Failure? ==>
                  r.error == if (exists k :: k in n.remotes && k != offer.requesterNode
                                             && n.remotes[k].baseUrl == offer.requesterUrl)
                                && Trim(offer.secret) != "" && offer.requesterUrl != ""
                                && offer.code in n.codes && n.codes[offer.code].consumedAt == None
                                && now < n.codes[offer.code].expiresAt
                             then Conflict else Validation)
  {
  }

  /** The requesting side establishes exactly an answer for the laboratory it asked for, with rows the table takes,
    under a base URL that no other node has. Then it knows the node by the secret it drew and the key version
    it was told, and trusts the laboratory it asked for. */
  lemma EstablishmentMeans(n: NodeState, remoteUrl: string, remoteLaboratory: Id, offer: Offer, answer: Answer)
    ensures var r := Established(n, remoteUrl, remoteLaboratory, offer, answer);
            var pin := if answer.tlsPin == None then offer.tlsPin else answer.tlsPin;
            && (r.Success? <==>
                  && answer.laboratory == remoteLaboratory
                  && remoteUrl != "" && offer.secret != "" && answer.keyVersion > 0
                  && StorablePin(pin)
                  && forall k :: k in n.remotes && k != answer.node ==> n.remotes[k].baseUrl != remoteUrl)
            && (r.Success? ==>
                  r.value == NodeState(
                    n.id,
                    n.remotes[answer.node := RemoteNode(remoteUrl, offer.secret, pin, Active, answer.keyVersion)],
                    n.trusts[TrustKey(offer.requesterLaboratory, answer.node, remoteLaboratory) := Active],
                    n.codes))
            && (r.Failure? && answer.laboratory != remoteLaboratory ==> r.error == BadGateway)
            && (r.Failure? && answer.laboratory == remoteLaboratory ==>
                  r.error == if remoteUrl != "" && offer.secret != "" && answer.keyVersion > 0 && StorablePin(pin)
                             then Conflict else Validation)
  {
  }

  // ---------------------------------------------------------------------------
  // agreement
  // ---------------------------------------------------------------------------

  /** One side of a pairing stands: the other node is on file with this secret, and trusted. */
  predicate Stands(n: NodeState, laboratory: Id, other: Id, otherLaboratory: Id, secret: string, keyVersion: int) {
    && other in n.remotes && n.remotes[other].status == Active
    && n.remotes[other].secret == secret && n.remotes[other].keyVersion == keyVersion
    && TrustKey(laboratory, other, otherLaboratory) in n.trusts
    && n.trusts[TrustKey(laboratory, other, otherLaboratory)] == Active
  }

  /** Same secret and key version on both sides, and mirror-image active trusts. */
  ghost predicate Agree(a: NodeState, la: Id, b: NodeState, lb: Id) {
    exists secret, keyVersion ::
      Stands(a, la, b.id, lb, secret, keyVersion) && Stands(b, lb, a.id, la, secret, keyVersion)
  }

  /** Signed by `sender` with what it has on file for `receiver`, checked by `receiver`. */
  predicate Passes(crypto: Crypto, sender: NodeState, identity: Identity, receiver: NodeState, laboratory: Id,
                   httpMethod: string, pathAndQuery: string, body: seq<byte>, timestamp: int, nonce: string,
                   now: int, ttl: nat)
    requires receiver.id in sender.remotes
  {
    var request := Signed(crypto, sender.remotes[receiver.id], identity, httpMethod, pathAndQuery, body, timestamp,
                          nonce);
    Refused(crypto, receiver.remotes, receiver.trusts, request, laboratory, now, ttl) == None
  }

  /** Between nodes that agree, either side's requests pass the other's checks, whatever
    they carry, if the user behind them is admissible and the clocks are close enough. */
  lemma AgreementVerifies(crypto: Crypto, sender: NodeState, receiver: NodeState, identity: Identity, laboratory: Id,
                          httpMethod: string, pathAndQuery: string, body: seq<byte>, timestamp: int, nonce: string,
                          now: int, ttl: nat)
    requires || Agree(sender, identity.laboratory, receiver, laboratory)
             || Agree(receiver, laboratory, sender, identity.laboratory)
    requires identity.node == sender.id && Trim(identity.userType) == identity.userType
    ensures receiver.id in sender.remotes
    ensures Passes(crypto, sender, identity, receiver, laboratory, httpMethod, pathAndQuery, body, timestamp, nonce,
                   now, ttl) <==>
            && (identity.userType == "lab_admin" || identity.userType == "user")
            && Trim(identity.username) != ""
            && now - timestamp <= ttl && timestamp - now <= ttl
  {
    MatchingCredentialsVerify(crypto, receiver.remotes, receiver.trusts, sender.remotes[receiver.id], identity,
                              httpMethod, pathAndQuery, body, timestamp, nonce, laboratory, now, ttl);
  }

  // ---------------------------------------------------------------------------
  // the nodes
  // ---------------------------------------------------------------------------

  predicate Live(nonces: map<Nonces.Key, int>, key: Nonces.Key, now: int) {
    key in nonces && nonces[key] > now
  }

  /** Exactly the expired nonces are gone, and `key`, if it names a nonce at all, is remembered: from
    before if it was, else for the TTL from now. */
  ghost predicate SweptAndSpent(before: map<Nonces.Key, int>, after: map<Nonces.Key, int>, key: Nonces.Key,
                                now: int, ttl: nat)
  {
    && (forall k :: k in after <==> Live(before, k, now) || (k == key && key.nonce != ""))
    && (forall k :: k in after ==> after[k] == if Live(before, k, now) then before[k] else now + ttl * Nonces.SECOND)
  }

  /** That is: what has not expired stays as it is, the request's own nonce, if it names one and is not among
    those, is added until the TTL has passed, and there is nothing else. */
  lemma SweptAndSpentMeans(before: map<Nonces.Key, int>, after: map<Nonces.Key, int>, key: Nonces.Key,
                           now: int, ttl: nat)
    ensures SweptAndSpent(before, after, key, now, ttl) <==>
            after == (map k | k in before && now < before[k] :: before[k])
                     + if key.nonce != "" && (key in before ==> before[key] <= now)
                       then map[key := now + ttl * 1_000_000] else map[]
  {
  }

  /** `RequestLost`: the offer never arrives. `ResponseLost`: it arrives, but the answer
    does not come back, cannot be read or fails the certificate check. */
  datatype Network = Delivered | RequestLost | ResponseLost

  class Node {
    const id: Id
    var remotes: map<Id, RemoteNode>
    var trusts: map<TrustKey, Status>
    var codes: map<string, Code>
    var nonces: map<Nonces.Key, int>

    function State(): NodeState
      reads this
    {
      NodeState(id, remotes, trusts, codes)
    }

    ghost predicate Valid()
      reads this
    {
      RowsFit(remotes)
    }

    method UpsertRemoteNode(node: Id, baseUrl: string, secret: string, tlsPin: Option<string>, keyVersion: int)
      returns (r: Result<(), FederationError>)
      requires Valid()
      modifies this`remotes
      ensures Valid()
      ensures var upserted := UpsertedRemote(old(remotes), node, baseUrl, secret, tlsPin, keyVersion);
              && (r.Success? <==> upserted.Success?)
              && remotes == (if upserted.Success? then upserted.value else old(remotes))
              && (r.Failure? ==> r.error == upserted.error)
    {
      var row := RemoteNode(baseUrl, secret, tlsPin, Active, keyVersion);
      if !RowAllowed(row) {
        return Failure(Validation);
      }
      if !UrlIsFree(remotes, node, baseUrl) {
        return Failure(Conflict);
      }
      if node in remotes {
        remotes := remotes[node := remotes[node].(baseUrl := baseUrl, secret := secret, tlsPin := tlsPin,
                                                  keyVersion := keyVersion, status := Active)];
      } else {
        remotes := remotes[node := row];
      }
      r := Success(());
    }

    /** Spends a code, in one statement. */
    method ConsumePairingCode(code: string, now: int) returns (laboratory: Option<Id>)
      modifies this`codes
      ensures laboratory.Some? <==> Consumable(old(codes), code, now)
      ensures laboratory.Some? <==>
              code in old(codes) && old(codes)[code].consumedAt == None && now < old(codes)[code].expiresAt
      ensures laboratory.Some? ==>
                && laboratory.value == old(codes)[code].laboratory
                && codes == old(codes)[code := Code(laboratory.value, old(codes)[code].expiresAt, Some(now))]
      ensures laboratory.None? ==> codes == old(codes)
    {
      if code in codes && codes[code].consumedAt.None? && codes[code].expiresAt > now {
        laboratory := Some(codes[code].laboratory);
        codes := codes[code := codes[code].(consumedAt := Some(now))];
      } else {
        laboratory := None;
      }
    }

    /** One transaction: when it fails, the code is not spent either. */
    method AcceptPairing(offer: Offer, now: int) returns (r: Result<Answer, FederationError>)
      requires Valid()
      modifies this`remotes, this`trusts, this`codes
      ensures Valid()
      ensures var accepted := Accepted(old(State()), offer, now);
              && (r.Success? <==> accepted.Success?)
              && State() == (if accepted.Success? then accepted.value else old(State()))
              && (r.Failure? ==> r.error == accepted.error)
      ensures r.Success? ==> old(offer.code in codes) && r.value == AnswerTo(old(State()), offer)
    {
      if BlankSecret(offer.secret) {
        return Failure(Validation);
      }
      var before := codes;
      var laboratory := ConsumePairingCode(offer.code, now);
      if laboratory.None? {
        return Failure(Validation);
      }
      var upserted := UpsertRemoteNode(offer.requesterNode, offer.requesterUrl, offer.secret, None, 1);
      if upserted.Failure? {
        codes := before;
        return Failure(upserted.error);
      }
      trusts := trusts[TrustKey(laboratory.value, offer.requesterNode, offer.requesterLaboratory) := Active];
      r := Success(Answer(id, laboratory.value, offer.tlsPin, 1));
    }

    /** Pairs with the node found at `remoteUrl`. A failure may leave the remote side paired. */
    method CreateTrust(remote: Node, laboratory: Id, remoteUrl: string, remoteLaboratory: Id, ownUrl: string,
                       code: string, secret: string, tlsPin: Option<string>, network: Network, now: int)
      returns (r: Result<(), FederationError>)
      requires Valid() && remote.Valid()
      modifies this`remotes, this`trusts, this`codes, remote`remotes, remote`trusts, remote`codes
      ensures Valid() && remote.Valid()
      ensures var offer := Offer(code, id, ownUrl, laboratory, secret, tlsPin);
              r.Success? <==>
              && network == Delivered
              && Completes(old(State()), old(remote.State()), this == remote, remoteUrl, remoteLaboratory, offer, now)
      ensures r.Success? ==> Agree(State(), laboratory, remote.State(), remoteLaboratory)
      ensures r.Success? ==> Stands(State(), laboratory, remote.id, remoteLaboratory, secret, 1)
      ensures r.Success? ==> !Consumable(remote.codes, code, now)
      ensures this != remote ==>
                var offer := Offer(code, id, ownUrl, laboratory, secret, tlsPin);
                var accepted := Accepted(old(remote.State()), offer, now);
                var established := Established(old(State()), remoteUrl, remoteLaboratory, offer,
                                               Answer(remote.id, remoteLaboratory, tlsPin, 1));
                var reached := ValidPin(tlsPin) && network != RequestLost && accepted.Success?;
                && remote.State() == (if reached then accepted.value else old(remote.State()))
                && State() == (if r.Success? then established.value else old(State()))
                && (r.Failure? ==>
                      r.error == if !ValidPin(tlsPin) then Validation
                                 else if !reached || network == ResponseLost
                                         || old(remote.codes)[code].laboratory != remoteLaboratory then BadGateway
                                 else established.error)
    {
      if !ValidPin(tlsPin) {
        return Failure(Validation);
      }
      if network == RequestLost {
        return Failure(BadGateway);
      }
      var offer := Offer(code, id, ownUrl, laboratory, secret, tlsPin);
      var answer := remote.AcceptPairing(offer, now);
      if answer.Failure? || network == ResponseLost || answer.value.laboratory != remoteLaboratory {
        return Failure(BadGateway);
      }
      var accepted := answer.value;
      var upserted := UpsertRemoteNode(accepted.node, remoteUrl, secret,
                                       if accepted.tlsPin.Some? then accepted.tlsPin else tlsPin, accepted.keyVersion);
      if upserted.Failure? {
        return Failure(upserted.error);
      }
      trusts := trusts[TrustKey(laboratory, accepted.node, remoteLaboratory) := Active];
      assert Stands(State(), laboratory, remote.id, remoteLaboratory, secret, 1);
      assert Stands(remote.State(), remoteLaboratory, id, laboratory, secret, 1);
      r := Success(());
    }

    /** Sweeps expired nonces, then spends this one. */
    method RememberNonce(node: Id, nonce: string, now: int, ttl: nat) returns (r: Option<Refusal>)
      modifies this`nonces
      ensures var key := Nonces.Key(node, nonce);
              && (r == Some(NonceEmpty) <==> nonce == "")
              && (r == Some(NonceUsed) <==> nonce != "" && key in old(nonces) && now < old(nonces)[key])
              && (r == None <==> nonce != "" && (key in old(nonces) ==> old(nonces)[key] <= now))
              && SweptAndSpent(old(nonces), nonces, key, now, ttl)
              && (forall k :: k in nonces <==>
                    (k in old(nonces) && now < old(nonces)[k]) || (k == key && nonce != ""))
              && (forall k :: k in nonces && k != key ==> nonces[k] == old(nonces)[k])
              && (r == None ==> nonces[key] == now + ttl * 1_000_000)
    {
      nonces := map k | k in nonces && nonces[k] > now :: nonces[k];
      var key := Nonces.Key(node, nonce);
      if nonce == "" {
        return Some(NonceEmpty);
      }
      if key in nonces {
        return Some(NonceUsed);
      }
      nonces := nonces[key := now + ttl * Nonces.SECOND];
      r := None;
    }

    /** Checks a request by the server's clock, and spends its nonce by the database's. A request
      refused by a check touches no nonce. */
    method VerifyInbound(crypto: Crypto, request: SignedRequest, laboratory: Id, now: int, databaseNow: int, ttl: nat)
      returns (r: Option<Refusal>)
      modifies this`nonces
      ensures var key := Nonces.Key(request.identity.node, request.nonce);
              var refused := Refused(crypto, remotes, trusts, request, laboratory, Nonces.Seconds(now), ttl);
              && r == (if refused.Some? then refused
                       else if request.nonce == "" then Some(NonceEmpty)
                       else if Live(old(nonces), key, databaseNow) then Some(NonceUsed) else None)
              && (if refused.Some? then nonces == old(nonces)
                  else SweptAndSpent(old(nonces), nonces, key, databaseNow, ttl))
    {
      r := Refused(crypto, remotes, trusts, request, laboratory, Nonces.Seconds(now), ttl);
      if r.Some? {
        return;
      }
      r := RememberNonce(request.identity.node, request.nonce, databaseNow, ttl);
    }
  }

  /** The two statements of `RememberNonce` are the two steps of the nonce protocol. */
  lemma RememberingIsSweepingAndInserting(s: Nonces.State, id: Nonces.Id, ttl: nat)
    requires id in s.inbound && s.inbound[id].phase == Nonces.Checked
    ensures Nonces.Enabled(Nonces.Apply(s, ttl, Nonces.DeleteExpired(id)), ttl, Nonces.InsertNonce(id))
    ensures var spent := Nonces.Apply(Nonces.Apply(s, ttl, Nonces.DeleteExpired(id)), ttl, Nonces.InsertNonce(id));
            && SweptAndSpent(s.nonces, spent.nonces, s.inbound[id].key, s.database, ttl)
            && (spent.inbound[id].phase == Nonces.Accepted <==>
                  s.inbound[id].key.nonce != "" && !Live(s.nonces, s.inbound[id].key, s.database))
  {
  }

  // ---------------------------------------------------------------------------
  // when a pairing completes
  // ---------------------------------------------------------------------------

  /** What a pairing over a working network takes. If the node pairs with itself, the two base URLs
    are written one after the other. */
  predicate Completes(requester: NodeState, accepter: NodeState, same: bool, remoteUrl: string, remoteLaboratory: Id,
                      offer: Offer, now: int)
  {
    && StorablePin(offer.tlsPin)
    && !BlankSecret(offer.secret)
    && Consumable(accepter.codes, offer.code, now)
    && accepter.codes[offer.code].laboratory == remoteLaboratory
    && offer.requesterUrl != "" && UrlIsFree(accepter.remotes, offer.requesterNode, offer.requesterUrl)
    && remoteUrl != ""
    && UrlIsFree(if same then accepter.remotes[offer.requesterNode :=
                                RemoteNode(offer.requesterUrl, offer.secret, None, Active, 1)]
                 else requester.remotes, accepter.id, remoteUrl)
  }

  /** The condition of `CreateTrust`, for two different nodes, field by field. */
  lemma CompletesMeans(requester: NodeState, accepter: NodeState, remoteUrl: string, remoteLaboratory: Id, offer: Offer,
                       now: int)
    ensures Completes(requester, accepter, false, remoteUrl, remoteLaboratory, offer, now) <==>
            && (offer.tlsPin.Some? ==> |offer.tlsPin.value| == 64 && AllChars(offer.tlsPin.value, false))
            && Trim(offer.secret) != ""
            && offer.code in accepter.codes && accepter.codes[offer.code].consumedAt == None
            && now < accepter.codes[offer.code].expiresAt && accepter.codes[offer.code].laboratory == remoteLaboratory
            && offer.requesterUrl != "" && remoteUrl != ""
            && (forall k :: k in accepter.remotes && k != offer.requesterNode ==>
                              accepter.remotes[k].baseUrl != offer.requesterUrl)
            && (forall k :: k in requester.remotes && k != accepter.id ==> requester.remotes[k].baseUrl != remoteUrl)
  {
    if offer.tlsPin.Some? {
      PinsMean(offer.tlsPin.value);
    }
  }

  /** A pin in upper-case letters passes validation but can not be stored: whatever the state of
    the two nodes, the remote side accepts the pairing and the requesting side then refuses it. */
  lemma UpperCasePinHalfPairs(requester: NodeState, accepter: NodeState, remoteUrl: string, offer: Offer, now: int)
    requires ValidPin(offer.tlsPin) && !StorablePin(offer.tlsPin)
    requires Accepted(accepter, offer, now).Success?
    ensures var laboratory := accepter.codes[offer.code].laboratory;
            var after := Accepted(accepter, offer, now).value;
            && Established(requester, remoteUrl, laboratory, offer, AnswerTo(accepter, offer)) == Failure(Validation)
            && !Consumable(after.codes, offer.code, now)
            && Stands(after, laboratory, offer.requesterNode, offer.requesterLaboratory, offer.secret, 1)
  {
  }
}
