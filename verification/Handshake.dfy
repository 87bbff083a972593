/** The TLS 1.2 client and server handshake machines, run against each other over an ordered
    channel. Certificates, keys, callbacks and message contents are oracles; a Finished message is
    an ideal MAC over the sender's transcript. */
module Handshake {
  import opened Wire

  datatype Side = Client | Server

  datatype MsgType =
    | ClientHello | ServerHello | Certificate | CertificateStatus | ServerKeyExchange
    | CertificateRequest | ServerHelloDone | ClientKeyExchange | CertificateVerify
    | NextProto | ChannelId | Finished | NewSessionTicket

  /** What of a message's body the machines look at. */
  datatype Body = Opaque(bytes: seq<byte>) | Chain(certificates: nat) | Mac(fromServer: bool, covered: seq<Item>)

  datatype Item = ChangeCipherSpec | Message(kind: MsgType, body: Body)

  /** What the two hellos settled, and what each side is configured to do with it. */
  datatype Params = Params(
    dtls: bool,             // the client looks for a HelloVerifyRequest
    resume: bool,           // the session is resumed
    certAuth: bool,         // the cipher uses certificates
    requiresSke: bool,      // the cipher cannot do without ServerKeyExchange
    pskHint: bool,          // a PSK cipher, and the server has a hint to send
    statusExpected: bool,   // the server may send CertificateStatus
    sendsStatus: bool,      // and it does
    certRequest: bool,      // the server asks for a client certificate
    clientHasCert: bool,    // the client has one
    ticket: bool,           // the server will send NewSessionTicket
    nextProto: bool,        // NPN
    channelId: bool)        // Channel ID

  predicate WFParams(p: Params) {
    && (p.certRequest ==> p.certAuth)
    && (p.sendsStatus ==> p.statusExpected && p.certAuth)
  }

  predicate SendsSke(p: Params) {
    p.requiresSke || p.pskHint
  }

  datatype ClientState =
    | CStart | CEarlyData | CReadHelloVerify | CReadServerHello | CReadCertificate | CReadStatus | CVerifyCertificate
    | CReadKeyExchange | CReadRequest | CReadHelloDone | CSendCertificate | CSendKeyExchange | CSendVerify
    | CSendFinished | CFinishFlight | CReadTicket | CProcessCcs | CReadFinished | CFinish | CDone

  datatype ServerState =
    | SStart | SReadClientHello | SSelectCertificate | SSelectParameters | SSendHello | SSendCertificate
    | SSendKeyExchange | SSendHelloDone | SReadCertificate | SVerifyCertificate | SReadKeyExchange | SReadVerify
    | SReadCcs | SProcessCcs | SReadNextProto | SReadChannelId | SReadFinished | SSendFinished | SFinish | SDone

  datatype Failure = Unexpected | BadFinished | Refused

  /** hs->wait, as far as it matters between two steps. */
  datatype Wait = Ready | Flushing | AwaitCcs | Failed(why: Failure)

  /** One endpoint. `flight` has not been given to the transport yet; `added` counts what joined
      the flight since the last completed flush; `n` counts all items sent and received. */
  datatype End<S> = End(state: S, wait: Wait, transcript: seq<Item>, flight: seq<Item>, added: nat,
                        certRequest: bool, peerCert: bool, n: nat)

  /** `took`: the head of the inbox was consumed. */
  datatype Outcome<S> = Outcome(end: End<S>, took: bool)

  /** What a callback or a check answers. */
  datatype Verdict = Proceed | Retry | Refuse

  function Hashed(transcript: seq<Item>, item: Item): seq<Item> {
    if item.Message? then transcript + [item] else transcript
  }

  function Add<S>(e: End<S>, item: Item): End<S> {
    e.(flight := e.flight + [item], added := e.added + 1, transcript := Hashed(e.transcript, item), n := e.n + 1)
  }

  function AddIf<S>(e: End<S>, present: bool, kind: MsgType, bytes: seq<byte>): End<S> {
    if present then Add(e, Message(kind, Opaque(bytes))) else e
  }

  function Take<S>(e: End<S>, item: Item): End<S> {
    e.(transcript := Hashed(e.transcript, item), n := e.n + 1)
  }

  function Stay<S>(e: End<S>): Outcome<S> {
    Outcome(e, false)
  }

  function Fail<S>(e: End<S>, why: Failure): Outcome<S> {
    Outcome(e.(wait := Failed(why)), false)
  }

  /** A callback that may want to be asked again, in front of a transition. */
  function Ask<S>(e: End<S>, v: Verdict, next: Outcome<S>): Outcome<S> {
    match v
    case Proceed => next
    case Retry => Stay(e)
    case Refuse => Fail(e, Refused)
  }

  /** get_message, a check of the type, and next_message. */
  function Expect<S>(e: End<S>, inbox: seq<Item>, kind: MsgType, v: Verdict, next: S): Outcome<S> {
    if inbox == [] then Stay(e)
    else if !inbox[0].Message? || inbox[0].kind != kind then Fail(e, Unexpected)
    else Ask(e, v, Outcome(Take(e, inbox[0]).(state := next), true))
  }

  /** ssl_get_finished. */
  function ExpectFinished<S>(e: End<S>, inbox: seq<Item>, fromServer: bool, next: S): Outcome<S> {
    if inbox == [] then Stay(e)
    else if !inbox[0].Message? || inbox[0].kind != Finished then Fail(e, Unexpected)
    else if inbox[0].body != Mac(fromServer, e.transcript) then Fail(e, BadFinished)
    else Outcome(Take(e, inbox[0]).(state := next), true)
  }

  /** ssl_send_finished. */
  function AddFinished<S>(e: End<S>, fromServer: bool): End<S> {
    Add(e, Message(Finished, Mac(fromServer, e.transcript)))
  }

  /** A Finished is accepted exactly when both sides have hashed the same transcript, and then
      they agree on it again. */
  lemma {:induction false} FinishedAcceptedIff<S, T>(e: End<S>, f: End<T>, fromServer: bool, next: T)
    ensures var after := AddFinished(e, fromServer);
            var o := ExpectFinished(f, [after.flight[|e.flight|]], fromServer, next);
            && (o.took <==> f.transcript == e.transcript)
            && (o.took ==> o.end.transcript == after.transcript)
            && (!o.took ==> o.end.wait == Failed(BadFinished) && o.end.transcript == f.transcript)
  {
  }

  // ---- the client ----

  /** One do_* call of ssl_client_handshake. */
  function ClientDo(p: Params, e: End<ClientState>, inbox: seq<Item>, v: Verdict,
      pay: MsgType -> seq<byte>): Outcome<ClientState> {
    match e.state
    case CStart => Outcome(AddIf(e, true, ClientHello, pay(ClientHello)).(state := CEarlyData, wait := Flushing), false)
    case CEarlyData => Outcome(e.(state := if p.dtls then CReadHelloVerify else CReadServerHello), false)
    case CReadHelloVerify =>
      if inbox == [] then Stay(e)
      else if !inbox[0].Message? then Fail(e, Unexpected)
      else Outcome(e.(state := CReadServerHello), false)
    case CReadServerHello => Expect(e, inbox, ServerHello, v, if p.resume then CReadTicket else CReadCertificate)
    case CReadCertificate =>
      if !p.certAuth then Outcome(e.(state := CReadStatus), false)
      else Expect(e, inbox, Certificate, v, CReadStatus)
    case CReadStatus =>
      if !p.statusExpected then Outcome(e.(state := CVerifyCertificate), false)
      else if inbox == [] then Stay(e)
      else if !inbox[0].Message? then Fail(e, Unexpected)
      else if inbox[0].kind != CertificateStatus then Outcome(e.(state := CVerifyCertificate), false)
      else Expect(e, inbox, CertificateStatus, v, CVerifyCertificate)
    case CVerifyCertificate =>
      if !p.certAuth then Outcome(e.(state := CReadKeyExchange), false)
      else Ask(e, v, Outcome(e.(state := CReadKeyExchange), false))
    case CReadKeyExchange =>
      if inbox == [] then Stay(e)
      else if !inbox[0].Message? then Fail(e, Unexpected)
      else if inbox[0].kind != ServerKeyExchange then
        if p.requiresSke then Fail(e, Unexpected) else Outcome(e.(state := CReadRequest), false)
      else if !p.requiresSke && !p.pskHint then Fail(e, Unexpected)
      else Expect(e, inbox, ServerKeyExchange, v, CReadRequest)
    case CReadRequest =>
      if !p.certAuth then Outcome(e.(state := CReadHelloDone), false)
      else if inbox == [] then Stay(e)
      else if !inbox[0].Message? then Fail(e, Unexpected)
      else if inbox[0].kind == ServerHelloDone then Outcome(e.(state := CReadHelloDone), false)
      else
        var o := Expect(e, inbox, CertificateRequest, v, CReadHelloDone);
        if o.took then o.(end := o.end.(certRequest := true)) else o
    case CReadHelloDone => Expect(e, inbox, ServerHelloDone, v, CSendCertificate)
    case CSendCertificate =>
      if !e.certRequest then Outcome(e.(state := CSendKeyExchange), false)
      else
        Ask(e, v, Outcome(Add(e, Message(Certificate,
            Chain(if p.clientHasCert then 1 else 0))).(state := CSendKeyExchange), false))
    case CSendKeyExchange =>
      Ask(e, v, Outcome(AddIf(e, true, ClientKeyExchange, pay(ClientKeyExchange)).(state := CSendVerify), false))
    case CSendVerify =>
      if !e.certRequest || !p.clientHasCert then Outcome(e.(state := CSendFinished), false)
      else Ask(e, v, Outcome(AddIf(e, true, CertificateVerify, pay(CertificateVerify)).(state := CSendFinished), false))
    case CSendFinished =>
      var a := Add(e, ChangeCipherSpec);
      var b := AddIf(a, p.nextProto, NextProto, pay(NextProto));
      var c := AddIf(b, p.channelId, ChannelId, pay(ChannelId));
      var next := Outcome(AddFinished(c, false).(state := CFinishFlight, wait := Flushing), false);
      if p.channelId then Ask(e, v, next) else next
    case CFinishFlight => Outcome(e.(state := if p.resume then CFinish else CReadTicket), false)
    case CReadTicket =>
      if !p.ticket then Outcome(e.(state := CProcessCcs, wait := AwaitCcs), false)
      else
        var o := Expect(e, inbox, NewSessionTicket, v, CProcessCcs);
        if o.took then o.(end := o.end.(wait := AwaitCcs)) else o
    case CProcessCcs => Outcome(e.(state := CReadFinished), false)
    case CReadFinished => ExpectFinished(e, inbox, true, if p.resume then CSendFinished else CFinish)
    case CFinish => Outcome(e.(state := CDone), false)
    case CDone => Stay(e)
  }

  // ---- the server ----

  /** One do_* call of ssl_server_handshake. */
  function ServerDo(p: Params, e: End<ServerState>, inbox: seq<Item>, v: Verdict,
      pay: MsgType -> seq<byte>): Outcome<ServerState> {
    match e.state
    case SStart => Outcome(e.(state := SReadClientHello), false)
    case SReadClientHello =>
      if inbox == [] then Stay(e)
      else if !inbox[0].Message? || inbox[0].kind != ClientHello then Fail(e, Unexpected)
      else Ask(e, v, Outcome(e.(state := SSelectCertificate), false))
    case SSelectCertificate =>
      if inbox == [] then Stay(e) else Ask(e, v, Outcome(e.(state := SSelectParameters), false))
    case SSelectParameters =>
      if inbox == [] then Stay(e)
      else Ask(e, v, Outcome(Take(e, inbox[0]).(state := SSendHello, certRequest := p.certRequest && !p.resume), true))
    case SSendHello =>
      Outcome(AddIf(e, true, ServerHello, pay(ServerHello)).(state := if p.resume then SSendFinished
          else SSendCertificate), false)
    case SSendCertificate =>
      var a := AddIf(e, p.certAuth, Certificate, pay(Certificate));
      var b := AddIf(a, p.certAuth && p.sendsStatus, CertificateStatus, pay(CertificateStatus));
      Ask(e, if v == Retry then Proceed else v, Outcome(b.(state := SSendKeyExchange), false))
    case SSendKeyExchange =>
      if !SendsSke(p) then Outcome(e.(state := SSendHelloDone), false)
      else Ask(e, v, Outcome(AddIf(e, true, ServerKeyExchange, pay(ServerKeyExchange)).(state := SSendHelloDone),
          false))
    case SSendHelloDone =>
      var a := AddIf(e, e.certRequest, CertificateRequest, pay(CertificateRequest));
      Outcome(AddIf(a, true, ServerHelloDone, pay(ServerHelloDone)).(state := SReadCertificate, wait := Flushing),
          false)
    case SReadCertificate =>
      if !e.certRequest then Outcome(e.(state := SVerifyCertificate), false)
      else
        var o := Expect(e, inbox, Certificate, v, SVerifyCertificate);
        if o.took then o.(end := o.end.(peerCert := inbox[0].body.Chain? && inbox[0].body.certificates > 0)) else o
    case SVerifyCertificate =>
      if !e.peerCert then Outcome(e.(state := SReadKeyExchange), false)
      else Ask(e, v, Outcome(e.(state := SReadKeyExchange), false))
    case SReadKeyExchange => Expect(e, inbox, ClientKeyExchange, v, SReadVerify)
    case SReadVerify =>
      if !e.peerCert then Outcome(e.(state := SReadCcs), false)
      else Expect(e, inbox, CertificateVerify, v, SReadCcs)
    case SReadCcs => Outcome(e.(state := SProcessCcs, wait := AwaitCcs), false)
    case SProcessCcs => Outcome(e.(state := SReadNextProto), false)
    case SReadNextProto =>
      if !p.nextProto then Outcome(e.(state := SReadChannelId), false)
      else Expect(e, inbox, NextProto, v, SReadChannelId)
    case SReadChannelId =>
      if !p.channelId then Outcome(e.(state := SReadFinished), false)
      else Expect(e, inbox, ChannelId, v, SReadFinished)
    case SReadFinished => ExpectFinished(e, inbox, false, if p.resume then SFinish else SSendFinished)
    case SSendFinished =>
      var a := AddIf(e, p.ticket, NewSessionTicket, pay(NewSessionTicket));
      var b := AddFinished(Add(a, ChangeCipherSpec), true);
      Outcome(b.(state := if p.resume then SReadCcs else SFinish, wait := Flushing), false)
    case SFinish => Outcome(e.(state := SDone), false)
    case SDone => Stay(e)
  }

  // ---- waits ----

  /** Resolving the wait for a ChangeCipherSpec record. */
  function OpenCcs<S>(e: End<S>, inbox: seq<Item>): Outcome<S> {
    if inbox == [] then Stay(e)
    else if inbox[0].Message? then Fail(e, Unexpected)
    else Outcome(Take(e, inbox[0]).(wait := Ready), true)
  }

  function ClientStep(p: Params, e: End<ClientState>, inbox: seq<Item>, v: Verdict,
      pay: MsgType -> seq<byte>): Outcome<ClientState> {
    match e.wait
    case Ready => ClientDo(p, e, inbox, v, pay)
    case AwaitCcs => OpenCcs(e, inbox)
    case _ => Stay(e)
  }

  function ServerStep(p: Params, e: End<ServerState>, inbox: seq<Item>, v: Verdict,
      pay: MsgType -> seq<byte>): Outcome<ServerState> {
    match e.wait
    case Ready => ServerDo(p, e, inbox, v, pay)
    case AwaitCcs => OpenCcs(e, inbox)
    case _ => Stay(e)
  }

  /** flush_flight: the transport takes the first `k` items; the wait ends when it has all. */
  function Flushed<S>(e: End<S>, k: nat): End<S>
    requires k <= |e.flight|
  {
    if e.wait != Flushing then e
    else if k == |e.flight| then e.(flight := [], wait := Ready, added := 0)
    else e.(flight := e.flight[k..])
  }

  // ---- the connection ----

  datatype Entry = Entry(side: Side, item: Item)

  /** `produced` lists everything either side ever added to a flight, in order. */
  datatype Net = Net(client: End<ClientState>, server: End<ServerState>, toClient: seq<Item>, toServer: seq<Item>,
      produced: seq<Entry>)

  datatype Event =
    | RunClient(v: Verdict, pay: MsgType -> seq<byte>)
    | RunServer(v: Verdict, pay: MsgType -> seq<byte>)
    | FlushClient(k: nat)
    | FlushServer(k: nat)

  function By(side: Side, items: seq<Item>): (r: seq<Entry>)
    ensures |r| == |items|
    ensures forall i :: 0 <= i < |r| ==> r[i] == Entry(side, items[i])
  {
    seq(|items|, i requires 0 <= i < |items| => Entry(side, items[i]))
  }

  /** The items a step added to a flight. */
  function Fresh(before: seq<Item>, after: seq<Item>): seq<Item> {
    if |before| <= |after| then after[|before|..] else []
  }

  function Step(p: Params, s: Net, e: Event): Net {
    match e
    case RunClient(v, pay) =>
      var o := ClientStep(p, s.client, s.toClient, v, pay);
      s.(client := o.end, toClient := if o.took && s.toClient != [] then s.toClient[1..] else s.toClient,
         produced := s.produced + By(Client, Fresh(s.client.flight, o.end.flight)))
    case RunServer(v, pay) =>
      var o := ServerStep(p, s.server, s.toServer, v, pay);
      s.(server := o.end, toServer := if o.took && s.toServer != [] then s.toServer[1..] else s.toServer,
         produced := s.produced + By(Server, Fresh(s.server.flight, o.end.flight)))
    case FlushClient(k) =>
      if k > |s.client.flight| || s.client.wait != Flushing then s
      else s.(client := Flushed(s.client, k), toServer := s.toServer + s.client.flight[..k])
    case FlushServer(k) =>
      if k > |s.server.flight| || s.server.wait != Flushing then s
      else s.(server := Flushed(s.server, k), toClient := s.toClient + s.server.flight[..k])
  }

  function Run(p: Params, s: Net, events: seq<Event>): Net
    decreases |events|
  {
    if events == [] then s else Run(p, Step(p, s, events[0]), events[1..])
  }

  function Initial(): Net {
    Net(End(CStart, Ready, [], [], 0, false, false, 0), End(SStart, Ready, [], [], 0, false, false, 0), [], [], [])
  }
}
