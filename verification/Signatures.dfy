/** Signed requests between nodes: what the sender signs and what the receiver checks.

  The MAC and the body digest are foreign code and enter as functions. A uuid's text
  is represented by the decimal of its id. */
module Signatures {
  import opened Wrappers
  import opened Bytes
  import opened Text
  import opened CanonicalText
  import Nonces

  type Id = int

  datatype Status = Active | Revoked

  datatype RemoteNode = RemoteNode(
    baseUrl: string,
    secret: string,
    tlsPin: Option<string>,
    status: Status,
    keyVersion: int)

  datatype TrustKey = TrustKey(laboratory: Id, remoteNode: Id, remoteLaboratory: Id)

  datatype Canonical = Canonical(
    httpMethod: string,
    pathAndQuery: string,
    bodyHash: string,
    node: Id,
    laboratory: Id,
    user: Id,
    userType: string,
    timestamp: int,
    nonce: string,
    keyVersion: int)

  datatype Crypto = Crypto(mac: (string, string) -> seq<byte>, digest: seq<byte> -> string)

  datatype Identity = Identity(node: Id, laboratory: Id, user: Id, username: string, userType: string)

  /** A request with its federation headers, as it travels. */
  datatype SignedRequest = SignedRequest(
    httpMethod: string,
    pathAndQuery: string,
    body: seq<byte>,
    identity: Identity,
    keyVersion: int,
    timestamp: int,
    nonce: string,
    signature: seq<byte>)

  /** What the MAC is computed over. */
  function TextOf(c: Canonical): string {
    Lines(["v1", Upper(c.httpMethod), c.pathAndQuery, c.bodyHash, Decimal(c.node), Decimal(c.laboratory),
           Decimal(c.user), c.userType, Decimal(c.timestamp), c.nonce, Decimal(c.keyVersion)])
  }

  /** Headers, paths and digests have no line breaks. */
  predicate OnLines(c: Canonical) {
    OneLine(c.httpMethod) && OneLine(c.pathAndQuery) && OneLine(c.bodyHash) && OneLine(c.userType) && OneLine(c.nonce)
  }

  /** The text spelled out, line by line. */
  lemma TextIs(c: Canonical)
    ensures TextOf(c) ==
            "v1" + ['\n'] + (Upper(c.httpMethod) + ['\n'] + (c.pathAndQuery + ['\n'] + (c.bodyHash + ['\n']
            + (Decimal(c.node) + ['\n'] + (Decimal(c.laboratory) + ['\n'] + (Decimal(c.user) + ['\n']
            + (c.userType + ['\n'] + (Decimal(c.timestamp) + ['\n'] + (c.nonce + ['\n'] + Decimal(c.keyVersion))))))))))
  {
    var f10 := [Decimal(c.keyVersion)];
    var f9 := [c.nonce] + f10;
    var f8 := [Decimal(c.timestamp)] + f9;
    var f7 := [c.userType] + f8;
    var f6 := [Decimal(c.user)] + f7;
    var f5 := [Decimal(c.laboratory)] + f6;
    var f4 := [Decimal(c.node)] + f5;
    var f3 := [c.bodyHash] + f4;
    var f2 := [c.pathAndQuery] + f3;
    var f1 := [Upper(c.httpMethod)] + f2;
    LinesCons(c.nonce, f10);
    LinesCons(Decimal(c.timestamp), f9);
    LinesCons(c.userType, f8);
    LinesCons(Decimal(c.user), f7);
    LinesCons(Decimal(c.laboratory), f6);
    LinesCons(Decimal(c.node), f5);
    LinesCons(c.bodyHash, f4);
    LinesCons(c.pathAndQuery, f3);
    LinesCons(Upper(c.httpMethod), f2);
    LinesCons("v1", f1);
    assert ["v1"] + f1 == ["v1", Upper(c.httpMethod), c.pathAndQuery, c.bodyHash, Decimal(c.node),
                           Decimal(c.laboratory), Decimal(c.user), c.userType, Decimal(c.timestamp), c.nonce,
                           Decimal(c.keyVersion)];
  }

  lemma LinesCons(head: string, tail: seq<string>)
    requires tail != []
    ensures Lines([head] + tail) == head + ['\n'] + Lines(tail)
  {
    assert ([head] + tail)[1..] == tail;
  }

  lemma AllDecimalsOneLine(c: Canonical)
    ensures OneLine(Decimal(c.node)) && OneLine(Decimal(c.laboratory)) && OneLine(Decimal(c.user))
    ensures OneLine(Decimal(c.timestamp)) && OneLine(Decimal(c.keyVersion))
  {
    DecimalIsOneLine(c.node);
    DecimalIsOneLine(c.laboratory);
    DecimalIsOneLine(c.user);
    DecimalIsOneLine(c.timestamp);
    DecimalIsOneLine(c.keyVersion);
  }

  /** The text fixes every signed field: two requests have the same text only if they agree on all
    of them, the method up to case. */
  lemma TextFixesFields(a: Canonical, b: Canonical)
    requires OnLines(a) && OnLines(b) && TextOf(a) == TextOf(b)
    ensures a.(httpMethod := Upper(a.httpMethod)) == b.(httpMethod := Upper(b.httpMethod))
  {
    AllDecimalsOneLine(a);
    AllDecimalsOneLine(b);
    var s := ["v1", Upper(a.httpMethod), a.pathAndQuery, a.bodyHash, Decimal(a.node), Decimal(a.laboratory),
              Decimal(a.user), a.userType, Decimal(a.timestamp), a.nonce, Decimal(a.keyVersion)];
    var t := ["v1", Upper(b.httpMethod), b.pathAndQuery, b.bodyHash, Decimal(b.node), Decimal(b.laboratory),
              Decimal(b.user), b.userType, Decimal(b.timestamp), b.nonce, Decimal(b.keyVersion)];
    LinesInjective(s, t);
    assert forall i :: 0 <= i < 11 ==> s[i] == t[i];
    assert s[1] == t[1] && s[2] == t[2] && s[3] == t[3] && s[4] == t[4] && s[5] == t[5];
    assert s[6] == t[6] && s[7] == t[7] && s[8] == t[8] && s[9] == t[9] && s[10] == t[10];
    DecimalInjective(a.node, b.node);
    DecimalInjective(a.laboratory, b.laboratory);
    DecimalInjective(a.user, b.user);
    DecimalInjective(a.timestamp, b.timestamp);
    DecimalInjective(a.keyVersion, b.keyVersion);
  }

  function CanonicalOf(crypto: Crypto, request: SignedRequest, userType: string, keyVersion: int): Canonical {
    Canonical(request.httpMethod, request.pathAndQuery, crypto.digest(request.body), request.identity.node,
              request.identity.laboratory, request.identity.user, userType, request.timestamp, request.nonce,
              keyVersion)
  }

  /** The signature of a request under a secret. */
  function SignCanonical(crypto: Crypto, secret: string, request: SignedRequest, userType: string, keyVersion: int)
    : seq<byte>
  {
    crypto.mac(secret, TextOf(CanonicalOf(crypto, request, userType, keyVersion)))
  }

  /** Signs with the secret and key version the sender has on file for the receiver. */
  function Signed(crypto: Crypto, receiver: RemoteNode, identity: Identity, httpMethod: string, pathAndQuery: string,
                  body: seq<byte>, timestamp: int, nonce: string): SignedRequest
  {
    var unsigned := SignedRequest(httpMethod, pathAndQuery, body, identity, receiver.keyVersion, timestamp, nonce, []);
    unsigned.(signature := SignCanonical(crypto, receiver.secret, unsigned, identity.userType, receiver.keyVersion))
  }

  // ---------------------------------------------------------------------------
  // comparing signatures
  // ---------------------------------------------------------------------------

  /** All differences between two byte strings, collected without stopping early. */
  function Differences(provided: seq<byte>, expected: seq<byte>, found: byte): byte {
    if provided == [] || expected == [] then found
    else Differences(provided[1..], expected[1..], found | (provided[0] ^ expected[0]))
  }

  function VerifySignature(provided: seq<byte>, expected: seq<byte>): bool {
    |provided| == |expected| && Differences(provided, expected, 0) == 0
  }

  lemma {:induction false} NoDifferences(provided: seq<byte>, expected: seq<byte>, found: byte)
    requires |provided| == |expected|
    ensures Differences(provided, expected, found) == 0 <==> found == 0 && provided == expected
  {
    if provided != [] {
      var a, b := provided[0], expected[0];
      NoDifferences(provided[1..], expected[1..], found | (a ^ b));
      OrOfXor(found, a, b);
      assert provided == [a] + provided[1..] && expected == [b] + expected[1..];
    }
  }

  lemma OrOfXor(found: byte, a: byte, b: byte)
    ensures found | (a ^ b) == 0 <==> found == 0 && a == b
  {
  }

  /** The comparison accepts exactly the expected bytes. */
  lemma VerifySignatureIsEquality(provided: seq<byte>, expected: seq<byte>)
    ensures VerifySignature(provided, expected) <==> provided == expected
  {
    if |provided| == |expected| {
      NoDifferences(provided, expected, 0);
    }
  }

  // ---------------------------------------------------------------------------
  // receiving
  // ---------------------------------------------------------------------------

  datatype Refusal =
    | UserTypeNotAllowed
    | UsernameMissing
    | OutsideWindow
    | NodeUnknown
    | NodeInactive
    | NotTrusted
    | SignatureMismatch
    | NonceUsed
    /** The table of nonces does not take an empty one. */
    | NonceEmpty

  /** Every check before the nonce is spent, in the order in which they are made. */
  function Refused(crypto: Crypto, remotes: map<Id, RemoteNode>, trusts: map<TrustKey, Status>,
                   request: SignedRequest, laboratory: Id, now: int, ttl: nat): Option<Refusal>
  {
    var sender := request.identity;
    var userType := Trim(sender.userType);
    var trust := TrustKey(laboratory, sender.node, sender.laboratory);
    if userType != "lab_admin" && userType != "user" then Some(UserTypeNotAllowed)
    else if Trim(sender.username) == "" then Some(UsernameMissing)
    else if !Nonces.InWindow(now, request.timestamp, ttl) then Some(OutsideWindow)
    else if sender.node !in remotes then Some(NodeUnknown)
    else if remotes[sender.node].status != Active || remotes[sender.node].keyVersion != request.keyVersion then
      Some(NodeInactive)
    else if trust !in trusts || trusts[trust] != Active then Some(NotTrusted)
    else if !VerifySignature(request.signature,
                             SignCanonical(crypto, remotes[sender.node].secret, request, userType, request.keyVersion))
    then Some(SignatureMismatch)
    else None
  }

  /** A request signed with matching credentials passes every check before the nonce,
    exactly if its sender is of an allowed kind, has a name and asks in time. */
  lemma MatchingCredentialsVerify(crypto: Crypto, remotes: map<Id, RemoteNode>, trusts: map<TrustKey, Status>,
                                  receiver: RemoteNode, identity: Identity, httpMethod: string, pathAndQuery: string,
                                  body: seq<byte>, timestamp: int, nonce: string, laboratory: Id, now: int, ttl: nat)
    requires identity.node in remotes && remotes[identity.node].status == Active
    requires remotes[identity.node].secret == receiver.secret
    requires remotes[identity.node].keyVersion == receiver.keyVersion
    requires TrustKey(laboratory, identity.node, identity.laboratory) in trusts
    requires trusts[TrustKey(laboratory, identity.node, identity.laboratory)] == Active
    requires Trim(identity.userType) == identity.userType
    ensures var request := Signed(crypto, receiver, identity, httpMethod, pathAndQuery, body, timestamp, nonce);
            Refused(crypto, remotes, trusts, request, laboratory, now, ttl) == None <==>
            && (identity.userType == "lab_admin" || identity.userType == "user")
            && Trim(identity.username) != ""
            && now - timestamp <= ttl && timestamp - now <= ttl
  {
    var request := Signed(crypto, receiver, identity, httpMethod, pathAndQuery, body, timestamp, nonce);
    VerifySignatureIsEquality(request.signature,
      SignCanonical(crypto, receiver.secret, request, identity.userType, receiver.keyVersion));
  }

  /** What a request is refused for, by the first check that it fails. */
  lemma RefusalsMean(crypto: Crypto, remotes: map<Id, RemoteNode>, trusts: map<TrustKey, Status>,
                     request: SignedRequest, laboratory: Id, now: int, ttl: nat)
    ensures var sender := request.identity;
            var userType := Trim(sender.userType);
            var trust := TrustKey(laboratory, sender.node, sender.laboratory);
            var allowed := userType == "lab_admin" || userType == "user";
            var named := allowed && Trim(sender.username) != "";
            var inTime := named && now - request.timestamp <= ttl && request.timestamp - now <= ttl;
            var known := inTime && sender.node in remotes;
            var live := known && remotes[sender.node].status == Active
                        && remotes[sender.node].keyVersion == request.keyVersion;
            var trusted := live && trust in trusts && trusts[trust] == Active;
            var r := Refused(crypto, remotes, trusts, request, laboratory, now, ttl);
            && (r == Some(UserTypeNotAllowed) <==> !allowed)
            && (r == Some(UsernameMissing) <==> allowed && !named)
            && (r == Some(OutsideWindow) <==> named && !inTime)
            && (r == Some(NodeUnknown) <==> inTime && !known)
            && (r == Some(NodeInactive) <==> known && !live)
            && (r == Some(NotTrusted) <==> live && !trusted)
            && (r == None <==>
                  trusted && request.signature == SignCanonical(crypto, remotes[sender.node].secret, request, userType,
                                                                request.keyVersion))
            && (r == None || r == Some(SignatureMismatch) <==> trusted)
  {
    var sender := request.identity;
    if sender.node in remotes {
      VerifySignatureIsEquality(request.signature,
        SignCanonical(crypto, remotes[sender.node].secret, request, Trim(sender.userType), request.keyVersion));
    }
  }

  /** Nothing passes without the receiver's own secret having signed exactly what arrived. */
  lemma PassingIsSigned(crypto: Crypto, remotes: map<Id, RemoteNode>, trusts: map<TrustKey, Status>,
                        request: SignedRequest, laboratory: Id, now: int, ttl: nat)
    requires Refused(crypto, remotes, trusts, request, laboratory, now, ttl) == None
    ensures var sender := request.identity;
            && sender.node in remotes
            && request.signature == SignCanonical(crypto, remotes[sender.node].secret, request, Trim(sender.userType),
                                                  remotes[sender.node].keyVersion)
            && remotes[sender.node].status == Active
            && TrustKey(laboratory, sender.node, sender.laboratory) in trusts
            && trusts[TrustKey(laboratory, sender.node, sender.laboratory)] == Active
  {
    var sender := request.identity;
    VerifySignatureIsEquality(request.signature,
      SignCanonical(crypto, remotes[sender.node].secret, request, Trim(sender.userType), request.keyVersion));
  }

  /** No two texts have the same MAC under this secret. */
  ghost predicate Injective(crypto: Crypto, secret: string) {
    forall t, u :: crypto.mac(secret, t) == crypto.mac(secret, u) ==> t == u
  }

  /** A request that passes with the signature of another one agrees with that in every signed field. */
  lemma PassingAgreesWithSigned(crypto: Crypto, remotes: map<Id, RemoteNode>, trusts: map<TrustKey, Status>,
                                request: SignedRequest, laboratory: Id, now: int, ttl: nat, signed: SignedRequest)
    requires Refused(crypto, remotes, trusts, request, laboratory, now, ttl) == None
    requires request.identity.node in remotes && Injective(crypto, remotes[request.identity.node].secret)
    requires request.signature == SignCanonical(crypto, remotes[request.identity.node].secret, signed,
                                                signed.identity.userType, signed.keyVersion)
    requires OnLines(CanonicalOf(crypto, request, Trim(request.identity.userType), request.keyVersion))
    requires OnLines(CanonicalOf(crypto, signed, signed.identity.userType, signed.keyVersion))
    ensures Upper(request.httpMethod) == Upper(signed.httpMethod) && request.pathAndQuery == signed.pathAndQuery
    ensures crypto.digest(request.body) == crypto.digest(signed.body)
    ensures request.identity.node == signed.identity.node && request.identity.laboratory == signed.identity.laboratory
    ensures request.identity.user == signed.identity.user
    ensures Trim(request.identity.userType) == signed.identity.userType
    ensures request.timestamp == signed.timestamp && request.nonce == signed.nonce
    ensures request.keyVersion == signed.keyVersion
  {
    PassingIsSigned(crypto, remotes, trusts, request, laboratory, now, ttl);
    TextFixesFields(CanonicalOf(crypto, request, Trim(request.identity.userType), request.keyVersion),
                    CanonicalOf(crypto, signed, signed.identity.userType, signed.keyVersion));
  }
}
