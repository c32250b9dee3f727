/** The node ID handshake of one connection: a cookie is a challenge, a signature over it the answer. */
module HandshakeProcess {
  import opened Options
  import opened Bytes
  import opened Messages
  import WireRoundTrip
  import SynCookies

  type NodeId = Bytes32
  type Table = map<Peer, SynCookies.CookieInfo>
  type Verifier = (NodeId, seq<byte>, Bytes64) -> bool

  datatype HandshakeError = OwnNodeId | InvalidGenesis | MissingCookie | InvalidSignature | EmptyResponse | MultipleQueries

  datatype Verdict = Passed(nodeId: Option<NodeId>, reply: Option<Handshake>) | Denied(error: HandshakeError)

  function DataToSign(cookie: SynCookies.Cookie, v2: Option<V2Payload>): seq<byte> {
    match v2
    case Some(payload) => cookie + payload.salt + payload.genesis
    case None => cookie
  }

  predicate ResponseValid(verify: Verifier, response: Response, cookie: SynCookies.Cookie) {
    verify(response.nodeId, DataToSign(cookie, response.v2), response.signature)
  }

  predicate GenesisMatches(response: Response, genesis: Bytes32) {
    response.v2.Some? ==> response.v2.value.genesis == genesis
  }

  /** The reasons to refuse a response, in the order they are looked at. */
  function Objection(verify: Verifier, own: NodeId, genesis: Bytes32, response: Response, cookie: Option<SynCookies.Cookie>)
    : Option<HandshakeError>
  {
    if response.nodeId == own then Some(OwnNodeId)
    else if !GenesisMatches(response, genesis) then Some(InvalidGenesis)
    else if cookie.None? then Some(MissingCookie)
    else if !ResponseValid(verify, response, cookie.value) then Some(InvalidSignature)
    else None
  }

  /** Which objection is made: the own node ID comes before a foreign genesis block, a missing cookie before a bad signature. */
  lemma ObjectionExactly(verify: Verifier, own: NodeId, genesis: Bytes32, response: Response, cookie: Option<SynCookies.Cookie>)
    ensures
      var objection := Objection(verify, own, genesis, response, cookie);
      var foreign := response.v2.Some? && response.v2.value.genesis != genesis;
      && (objection == Some(OwnNodeId) <==> response.nodeId == own)
      && (objection == Some(InvalidGenesis) <==> response.nodeId != own && foreign)
      && (objection == Some(MissingCookie) <==> response.nodeId != own && !foreign && cookie.None?)
      && (objection == Some(InvalidSignature) <==>
          response.nodeId != own && !foreign && cookie.Some? && !ResponseValid(verify, response, cookie.value))
      && objection != Some(EmptyResponse) && objection != Some(MultipleQueries)
  {
  }

  /** What is signed: the cookie, and in the new version the salt and the genesis block behind it. */
  lemma SignedBytes(cookie: SynCookies.Cookie, v2: Option<V2Payload>)
    ensures v2.None? ==> |DataToSign(cookie, v2)| == 32 && DataToSign(cookie, v2) == cookie
    ensures v2.Some? ==>
      var data := DataToSign(cookie, v2);
      |data| == 96 && data[..32] == cookie && data[32..64] == v2.value.salt && data[64..] == v2.value.genesis
  {
  }

  /** So the signed bytes determine the cookie, the version, the salt and the genesis block. */
  lemma SignedBytesDetermine(cookie: SynCookies.Cookie, v2: Option<V2Payload>, other: SynCookies.Cookie, otherV2: Option<V2Payload>)
    requires DataToSign(cookie, v2) == DataToSign(other, otherV2)
    ensures cookie == other && v2 == otherV2
  {
    SignedBytes(cookie, v2);
    SignedBytes(other, otherV2);
    hide DataToSign;
  }

  /** A signature is good for one piece of data only. */
  ghost predicate Binds(verify: Verifier) {
    forall id: NodeId, data: seq<byte>, other: seq<byte>, signature: Bytes64 ::
      verify(id, data, signature) && verify(id, other, signature) ==> data == other
  }

  /** A response whose signature was made over a cookie, a salt and a genesis block is accepted exactly if it carries that salt
      and genesis block, answers to that cookie, and neither the node ID nor the genesis block is objectionable. */
  lemma AcceptedExactlyAsSigned(verify: Verifier, own: NodeId, genesis: Bytes32, response: Response, cookie: Option<SynCookies.Cookie>,
                                signedCookie: SynCookies.Cookie, signedV2: Option<V2Payload>)
    requires Binds(verify) && verify(response.nodeId, DataToSign(signedCookie, signedV2), response.signature)
    ensures Objection(verify, own, genesis, response, cookie).None? <==>
      && response.nodeId != own && (response.v2.Some? ==> response.v2.value.genesis == genesis)
      && cookie == Some(signedCookie) && response.v2 == signedV2
  {
    hide DataToSign;
    if cookie.Some? && ResponseValid(verify, response, cookie.value) {
      SignedBytesDetermine(cookie.value, response.v2, signedCookie, signedV2);
    }
  }

  /** A reply that answers with `response` and asks `query` in turn. */
  function Reply(query: Option<SynCookies.Cookie>, response: Response): Handshake {
    Handshake(query, Some(response), query.Some? || response.v2.Some?)
  }

  /** What an accepted response rests on. */
  datatype Evidence = Evidence(number: nat, peer: Peer, cookie: SynCookies.Cookie, response: Response)

  class HandshakeProcess {
    const genesis: Bytes32
    const nodeId: NodeId
    const sign: seq<byte> -> Bytes64
    const verify: Verifier
    const cookies: SynCookies.SynCookies
    var handshakeReceived: bool
    ghost var answered: nat
    ghost var accepted: seq<Evidence>

    /** At most one query was answered; every accepted response is signed over a cookie of its own that was issued to
        the peer it came from. */
    ghost predicate Valid()
      reads this, cookies
    {
      && cookies.Valid()
      && answered <= (if handshakeReceived then 1 else 0)
      && (forall e :: e in accepted ==> Sound(e))
      && (forall i, j :: 0 <= i < j < |accepted| ==> accepted[i].number != accepted[j].number)
    }

    ghost predicate Sound(e: Evidence)
      reads cookies
    {
      && cookies.UsedBy(e.number, e.peer, e.cookie)
      && e.number in cookies.takenBy && cookies.takenBy[e.number] == this
      && ResponseValid(verify, e.response, e.cookie)
      && e.response.nodeId != nodeId
      && GenesisMatches(e.response, genesis)
    }

    constructor (genesis: Bytes32, nodeId: NodeId, sign: seq<byte> -> Bytes64, verify: Verifier, cookies: SynCookies.SynCookies)
      requires cookies.Valid()
      ensures Valid() && !handshakeReceived && answered == 0 && accepted == []
      ensures this.genesis == genesis && this.nodeId == nodeId && this.cookies == cookies
      ensures this.sign == sign && this.verify == verify
    {
      this.genesis, this.nodeId, this.sign, this.verify, this.cookies := genesis, nodeId, sign, verify, cookies;
      handshakeReceived, answered, accepted := false, 0, [];
    }

    /** The shared cookies may change in between as long as their logs only grow. */
    method OtherConnections(writes: nat)
      requires Valid()
      modifies cookies
      ensures Valid() && cookies.Grows()
      ensures writes == 0 ==> cookies.cookies == old(cookies.cookies)
    {
      cookies.OtherConnections(writes);
    }

    lemma CookiesAreValid()
      requires Valid()
      ensures cookies.Valid()
    {
    }

    /** What others do with the shared cookies does not harm this process. */
    twostate lemma StaysValid()
      requires old(Valid()) && unchanged(this) && cookies.Valid() && cookies.Grows()
      ensures Valid()
    {
      forall e | e in accepted ensures Sound(e) {
        assert old(Sound(e));
      }
    }

    method InitiateHandshake(peer: Peer, random: SynCookies.Cookie, now: nat) returns (h: Option<Handshake>)
      requires Valid()
      modifies cookies
      ensures Valid() && cookies.used == old(cookies.used) && cookies.Grows()
      ensures h == if CanQuery(old(cookies.cookies), peer) then Some(Handshake(Some(random), None, true)) else None
      ensures cookies.cookies == if h.Some? then old(cookies.cookies)[peer := SynCookies.CookieInfo(random, now)] else old(cookies.cookies)
    {
      var query := cookies.Assign(peer, random, now);
      h := if query.None? then None else Some(Handshake(query, None, true));
    }

    predicate CanQuery(table: Table, peer: Peer) {
      peer !in table && |SynCookies.At(table.Keys, peer.ip)| < cookies.maxPerIp
    }

    function CookieIn(table: Table, peer: Peer): Option<SynCookies.Cookie> {
      if peer in table then Some(table[peer].cookie) else None
    }

    /** The cookies after the query in a message has been answered. */
    function Asked(table: Table, received: bool, message: Handshake, peer: Peer, random: SynCookies.Cookie, now: nat): Table {
      if message.query.Some? && !received && CanQuery(table, peer) then table[peer := SynCookies.CookieInfo(random, now)] else table
    }

    function ResponseTo(cookie: SynCookies.Cookie, isV2: bool, salt: Bytes32): Response {
      var v2 := if isV2 then Some(V2Payload(salt, genesis)) else None;
      Response(nodeId, sign(DataToSign(cookie, v2)), v2)
    }

    /** What the answer to a message must be. `seen` are the cookies when the response in it is looked at. */
    function Expected(table: Table, seen: Table, received: bool, message: Handshake, peer: Peer, random: SynCookies.Cookie,
                      salt: Bytes32): Verdict
    {
      if message.query.None? && message.response.None? then Denied(EmptyResponse)
      else if message.query.Some? && received then Denied(MultipleQueries)
      else
        var reply := if message.query.None? then None else
          Some(Reply(if CanQuery(table, peer) then Some(random) else None, ResponseTo(message.query.value, message.isV2, salt)));
        if message.response.None? then Passed(None, reply) else
          var objection := Objection(verify, nodeId, genesis, message.response.value, CookieIn(seen, peer));
          if objection.Some? then Denied(objection.value) else Passed(Some(message.response.value.nodeId), reply)
    }

    /** The cookies after a message was processed. */
    function TableAfter(seen: Table, received: bool, message: Handshake, peer: Peer): Table {
      if message.query.Some? && received then seen
      else if message.response.Some? && message.response.value.nodeId != nodeId && GenesisMatches(message.response.value, genesis)
      then seen - {peer} else seen
    }

    /** A node ID comes out only for a response over a cookie that was issued to this peer and is used up by it. Others may
        make `others` changes to the cookies between the answer to a query and the look at a response. A reply survives the
        wire exactly if the query is a new one or no cookie can be handed out. */
    method ProcessHandshake(message: Handshake, peer: Peer, random: SynCookies.Cookie, salt: Bytes32, now: nat, others: nat)
      returns (verdict: Verdict, ghost seen: Table)
      requires Valid()
      modifies this, cookies
      ensures Valid() && cookies.Grows()
      ensures verdict == Expected(old(cookies.cookies), seen, old(handshakeReceived), message, peer, random, salt)
      ensures cookies.cookies == TableAfter(seen, old(handshakeReceived), message, peer)
      ensures others == 0 ==> seen == Asked(old(cookies.cookies), old(handshakeReceived), message, peer, random, now)
      ensures handshakeReceived == (old(handshakeReceived) || (message.query.Some? || message.response.Some?))
      ensures answered == old(answered) + if message.query.Some? && !old(handshakeReceived) then 1 else 0
      ensures verdict.Passed? && verdict.nodeId.Some? ==>
        && |accepted| == |old(accepted)| + 1 && old(accepted) < accepted
        && var e := accepted[|old(accepted)|];
           e.peer == peer && Some(e.response) == message.response && e.response.nodeId == verdict.nodeId.value
           && e.number !in old(cookies.used)
      ensures verdict.Denied? || verdict.nodeId.None? ==> accepted == old(accepted)
      ensures verdict.Passed? && verdict.reply.Some? ==>
        (WireRoundTrip.WellFormed(NodeIdHandshake(verdict.reply.value)) <==> message.isV2 || !CanQuery(old(cookies.cookies), peer))
    {
      hide SynCookies.CountsMatch, SynCookies.LogMatches, SynCookies.At, ResponseValid, GenesisMatches, Reply, ResponseTo, CanQuery,
           WireRoundTrip.WellFormed;
      seen := cookies.cookies;
      if message.query.None? && message.response.None? {
        return Denied(EmptyResponse), seen;
      }
      if message.query.Some? && handshakeReceived {
        return Denied(MultipleQueries), seen;
      }
      handshakeReceived := true;
      var reply := None;
      if message.query.Some? {
        var r := CreateResponse(message.query.value, message.isV2, peer, random, salt, now);
        reply := Some(r);
        answered := answered + 1;
      }
      OtherConnections(others);
      seen := cookies.cookies;
      if message.response.Some? {
        var objection := VerifyResponse(message.response.value, peer);
        if objection.Some? {
          return Denied(objection.value), seen;
        }
        return Passed(Some(message.response.value.nodeId), reply), seen;
      }
      verdict := Passed(None, reply);
    }

    method CreateResponse(query: SynCookies.Cookie, isV2: bool, peer: Peer, random: SynCookies.Cookie, salt: Bytes32, now: nat)
      returns (reply: Handshake)
      requires Valid()
      modifies cookies
      ensures Valid() && cookies.used == old(cookies.used) && cookies.Grows()
      ensures var can := CanQuery(old(cookies.cookies), peer);
        && reply == Reply(if can then Some(random) else None, ResponseTo(query, isV2, salt))
        && cookies.cookies == (if can then old(cookies.cookies)[peer := SynCookies.CookieInfo(random, now)] else old(cookies.cookies))
        && (WireRoundTrip.WellFormed(NodeIdHandshake(reply)) <==> isV2 || !can)
    {
      var response := ResponseTo(query, isV2, salt);
      var ownQuery := cookies.Assign(peer, random, now);
      reply := Handshake(ownQuery, Some(response), ownQuery.Some? || response.v2.Some?);
    }

    /** A bad signature costs the peer its cookie; the own node ID and a foreign genesis block do not. */
    method VerifyResponse(response: Response, peer: Peer) returns (objection: Option<HandshakeError>)
      requires Valid()
      modifies cookies, this`accepted
      ensures Valid() && cookies.issued == old(cookies.issued) && cookies.Grows()
      ensures var cookie := if peer in old(cookies.cookies) then Some(old(cookies.cookies[peer].cookie)) else None;
        objection == Objection(verify, nodeId, genesis, response, cookie)
      ensures cookies.cookies ==
        if objection == Some(OwnNodeId) || objection == Some(InvalidGenesis) then old(cookies.cookies) else old(cookies.cookies) - {peer}
      ensures objection.Some? ==> accepted == old(accepted)
      ensures objection.None? ==>
        exists k: nat, cookie: SynCookies.Cookie ::
          accepted == old(accepted) + [Evidence(k, peer, cookie, response)] && k !in old(cookies.used)
    {
      if response.nodeId == nodeId {
        return Some(OwnNodeId);
      }
      if !GenesisMatches(response, genesis) {
        return Some(InvalidGenesis);
      }
      forall i | 0 <= i < |accepted| ensures accepted[i].number in cookies.used {
        assert Sound(accepted[i]);
      }
      ghost var k := if peer in cookies.live then cookies.live[peer] else 0;
      var cookie := cookies.TakeCookie(peer, this);
      if cookie.None? {
        return Some(MissingCookie);
      }
      if !ResponseValid(verify, response, cookie.value) {
        return Some(InvalidSignature);
      }
      accepted := accepted + [Evidence(k, peer, cookie.value, response)];
      objection := None;
    }
  }

  /** Whatever the process signs is accepted under its node ID. */
  ghost predicate SignsFor(p: HandshakeProcess, verify: Verifier) {
    forall data: seq<byte> :: verify(p.nodeId, data, p.sign(data))
  }

  /** The response of a process carries the salt and the genesis block, and answers exactly the cookie it was asked with. */
  lemma OwnResponse(p: HandshakeProcess, verify: Verifier, own: NodeId, cookie: SynCookies.Cookie, isV2: bool, salt: Bytes32,
                    asked: Option<SynCookies.Cookie>)
    requires Binds(verify) && SignsFor(p, verify)
    ensures
      var response := p.ResponseTo(cookie, isV2, salt);
      && response.nodeId == p.nodeId
      && response.v2.Some? == isV2
      && (isV2 ==> response.v2.value.salt == salt && response.v2.value.genesis == p.genesis)
      && (Objection(verify, own, p.genesis, response, asked).None? <==> p.nodeId != own && asked == Some(cookie))
  {
    hide DataToSign, Objection;
    var response := p.ResponseTo(cookie, isV2, salt);
    AcceptedExactlyAsSigned(verify, own, p.genesis, response, asked, cookie, response.v2);
  }

  lemma PutAndTake(table: Table, peer: Peer, info: SynCookies.CookieInfo)
    requires peer !in table
    ensures table[peer := info] - {peer} == table
  {
  }

  /** The first step: `b` answers a query and asks in turn. */
  lemma HonestAnswer(b: HandshakeProcess, table: Table, seen: Table, peer: Peer, cookie: SynCookies.Cookie, random: SynCookies.Cookie,
                     salt: Bytes32)
    requires b.CanQuery(table, peer)
    ensures b.Expected(table, seen, false, Handshake(Some(cookie), None, true), peer, random, salt) ==
            Passed(None, Some(Reply(Some(random), b.ResponseTo(cookie, true, salt))))
    ensures b.TableAfter(seen, false, Handshake(Some(cookie), None, true), peer) == seen
  {
    hide SynCookies.At, DataToSign;
  }

  /** The second step: `a` answers that query, and knows `b` if its own cookie is still there. */
  lemma HonestSecond(a: HandshakeProcess, b: HandshakeProcess, table: Table, seen: Table, peer: Peer, cookieA: SynCookies.Cookie,
                     cookieB: SynCookies.Cookie, random: SynCookies.Cookie, saltA: Bytes32, saltB: Bytes32)
    requires a.nodeId != b.nodeId && a.genesis == b.genesis && SignsFor(b, a.verify) && !a.CanQuery(table, peer)
    ensures
      var verdict := a.Expected(table, seen, false, Reply(Some(cookieB), b.ResponseTo(cookieA, true, saltB)), peer, random, saltA);
      && (a.CookieIn(seen, peer) == Some(cookieA) ==> verdict.Passed?)
      && (verdict.Passed? ==> verdict == Passed(Some(b.nodeId), Some(Reply(None, a.ResponseTo(cookieB, true, saltA)))))
    ensures a.TableAfter(seen, false, Reply(Some(cookieB), b.ResponseTo(cookieA, true, saltB)), peer) == seen - {peer}
  {
    hide SynCookies.At, DataToSign;
  }

  /** The last step: `b` knows `a`. */
  lemma HonestLast(a: HandshakeProcess, b: HandshakeProcess, table: Table, seen: Table, received: bool, peer: Peer,
                   cookieB: SynCookies.Cookie, random: SynCookies.Cookie, saltA: Bytes32, saltB: Bytes32)
    requires a.nodeId != b.nodeId && a.genesis == b.genesis && SignsFor(a, b.verify) && b.CookieIn(seen, peer) == Some(cookieB)
    ensures b.Expected(table, seen, received, Reply(None, a.ResponseTo(cookieB, true, saltA)), peer, random, saltB) ==
            Passed(Some(a.nodeId), None)
    ensures b.TableAfter(seen, received, Reply(None, a.ResponseTo(cookieB, true, saltA)), peer) == seen - {peer}
  {
    hide SynCookies.At, DataToSign;
  }

  method Answer(b: HandshakeProcess, peer: Peer, cookie: SynCookies.Cookie, random: SynCookies.Cookie, salt: Bytes32, now: nat,
                others: nat)
    returns (reply: Handshake)
    requires b.Valid() && !b.handshakeReceived && b.CanQuery(b.cookies.cookies, peer)
    modifies b, b.cookies
    ensures b.Valid() && reply == Reply(Some(random), b.ResponseTo(cookie, true, salt)) && Survives(reply)
    ensures others == 0 ==> b.cookies.cookies == old(b.cookies.cookies)[peer := SynCookies.CookieInfo(random, now)]
  {
    hide HandshakeProcess.Valid, HandshakeProcess.CanQuery, HandshakeProcess.Expected, HandshakeProcess.ResponseTo,
         HandshakeProcess.TableAfter;
    var verdict;
    ghost var seen;
    verdict, seen := b.ProcessHandshake(Handshake(Some(cookie), None, true), peer, random, salt, now, others);
    HonestAnswer(b, old(b.cookies.cookies), seen, peer, cookie, random, salt);
    reply := verdict.reply.value;
  }

  method AnswerBack(a: HandshakeProcess, b: HandshakeProcess, peer: Peer, cookieA: SynCookies.Cookie, cookieB: SynCookies.Cookie,
                    random: SynCookies.Cookie, saltA: Bytes32, saltB: Bytes32, now: nat, others: nat)
    returns (verdict: Verdict)
    requires a.Valid() && !a.handshakeReceived && !a.CanQuery(a.cookies.cookies, peer)
    requires a.nodeId != b.nodeId && a.genesis == b.genesis && SignsFor(b, a.verify)
    modifies a, a.cookies
    ensures a.Valid() && (others == 0 ==> a.cookies.cookies == old(a.cookies.cookies) - {peer})
    ensures verdict.Passed? ==>
      verdict == Passed(Some(b.nodeId), Some(Reply(None, a.ResponseTo(cookieB, true, saltA)))) && Survives(verdict.reply.value)
    ensures others == 0 && a.CookieIn(old(a.cookies.cookies), peer) == Some(cookieA) ==> verdict.Passed?
  {
    hide HandshakeProcess.Valid, HandshakeProcess.CanQuery, HandshakeProcess.Expected, HandshakeProcess.ResponseTo,
         HandshakeProcess.TableAfter, SignsFor;
    ghost var seen;
    verdict, seen := a.ProcessHandshake(Reply(Some(cookieB), b.ResponseTo(cookieA, true, saltB)), peer, random, saltA, now, others);
    HonestSecond(a, b, old(a.cookies.cookies), seen, peer, cookieA, cookieB, random, saltA, saltB);
  }

  method Accept(a: HandshakeProcess, b: HandshakeProcess, peer: Peer, cookieB: SynCookies.Cookie, random: SynCookies.Cookie,
                saltA: Bytes32, saltB: Bytes32, now: nat, others: nat)
    returns (verdict: Verdict)
    requires b.Valid() && a.nodeId != b.nodeId && a.genesis == b.genesis && SignsFor(a, b.verify)
    modifies b, b.cookies
    ensures b.Valid()
    ensures others == 0 && b.CookieIn(old(b.cookies.cookies), peer) == Some(cookieB) ==>
      verdict == Passed(Some(a.nodeId), None) && b.cookies.cookies == old(b.cookies.cookies) - {peer}
  {
    hide HandshakeProcess.Valid, HandshakeProcess.CanQuery, HandshakeProcess.Expected, HandshakeProcess.ResponseTo,
         HandshakeProcess.TableAfter, SignsFor;
    ghost var seen;
    verdict, seen := b.ProcessHandshake(Reply(None, a.ResponseTo(cookieB, true, saltA)), peer, random, saltB, now, others);
    if b.CookieIn(seen, peer) == Some(cookieB) {
      HonestLast(a, b, old(b.cookies.cookies), seen, old(b.handshakeReceived), peer, cookieB, random, saltA, saltB);
    }
  }

  predicate Survives(h: Handshake) {
    WireRoundTrip.WellFormed(NodeIdHandshake(h))
  }

  /** Two honest nodes get to know each other in three messages, each of which survives the wire, and all cookies are
      taken back, provided the other connections leave the cookies alone meanwhile. */
  method HonestNodesConnect(a: HandshakeProcess, b: HandshakeProcess, addressA: Peer, addressB: Peer,
                            cookieA: SynCookies.Cookie, cookieB: SynCookies.Cookie, saltA: Bytes32, saltB: Bytes32, now: nat,
                            others: nat)
    returns (query: Option<Handshake>, answer: Handshake, seenByA: Verdict, seenByB: Verdict)
    requires a.Valid() && b.Valid() && a != b && a.cookies != b.cookies
    requires !a.handshakeReceived && !b.handshakeReceived
    requires a.nodeId != b.nodeId && a.genesis == b.genesis && SignsFor(a, b.verify) && SignsFor(b, a.verify)
    requires a.CanQuery(a.cookies.cookies, addressB) && b.CanQuery(b.cookies.cookies, addressA)
    modifies a, b, a.cookies, b.cookies
    ensures a.Valid() && b.Valid()
    ensures query.Some? && Survives(query.value) && Survives(answer)
    ensures seenByA.Passed? ==> seenByA.reply.Some? && Survives(seenByA.reply.value)
    ensures others == 0 ==>
      && seenByA.Passed? && seenByA.nodeId == Some(b.nodeId)
      && seenByB.Passed? && seenByB.nodeId == Some(a.nodeId)
      && a.cookies.cookies == old(a.cookies.cookies) && b.cookies.cookies == old(b.cookies.cookies)
  {
    hide HandshakeProcess.Valid, SynCookies.SynCookies.Valid;
    assert addressB !in a.cookies.cookies && addressA !in b.cookies.cookies;
    PutAndTake(a.cookies.cookies, addressB, SynCookies.CookieInfo(cookieA, now));
    PutAndTake(b.cookies.cookies, addressA, SynCookies.CookieInfo(cookieB, now));
    assert !a.CanQuery(a.cookies.cookies[addressB := SynCookies.CookieInfo(cookieA, now)], addressB);
    hide HandshakeProcess.CanQuery, HandshakeProcess.ResponseTo, SignsFor, Reply;
    query := a.InitiateHandshake(addressB, cookieA, now);
    assert Survives(query.value);
    hide Survives;
    answer := Answer(b, addressA, cookieA, cookieB, saltB, now, others);
    seenByA := AnswerBack(a, b, addressB, cookieA, cookieB, cookieB, saltA, saltB, now, others);
    seenByB := seenByA;
    if seenByA.Passed? {
      seenByB := Accept(a, b, addressA, cookieB, cookieA, saltA, saltB, now, others);
    }
  }

  /** No cookie ever stands behind two accepted responses, whichever connections they came from. */
  lemma NoSharedEvidence(p: HandshakeProcess, q: HandshakeProcess, e: Evidence, f: Evidence)
    requires p.Valid() && q.Valid() && p != q && p.cookies == q.cookies && e in p.accepted && f in q.accepted
    ensures e.number != f.number
  {
    assert p.Sound(e) && q.Sound(f);
  }

  /** Two connections that share the cookies, one message after the other: both stay sound, and whatever they ever accepted
      rests on different cookies. */
  method TwoConnections(p: HandshakeProcess, q: HandshakeProcess, first: Handshake, second: Handshake, peerP: Peer, peerQ: Peer,
                        random: SynCookies.Cookie, salt: Bytes32, now: nat, others: nat)
    returns (verdictP: Verdict, verdictQ: Verdict)
    requires p.Valid() && q.Valid() && p != q && p.cookies == q.cookies
    modifies p, q, p.cookies
    ensures p.Valid() && q.Valid()
    ensures forall e, f :: e in p.accepted && f in q.accepted ==> e.number != f.number
  {
    hide HandshakeProcess.Valid, HandshakeProcess.Expected, HandshakeProcess.TableAfter, SynCookies.SynCookies.Valid;
    ghost var seen;
    label start:
    verdictP, seen := p.ProcessHandshake(first, peerP, random, salt, now, others);
    p.CookiesAreValid();
    q.StaysValid@start();
    label between:
    verdictQ, seen := q.ProcessHandshake(second, peerQ, random, salt, now, others);
    q.CookiesAreValid();
    p.StaysValid@between();
    forall e, f | e in p.accepted && f in q.accepted ensures e.number != f.number {
      NoSharedEvidence(p, q, e, f);
    }
  }
}
