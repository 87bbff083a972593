/** One handshake machine against any peer: whatever arrives in its inbox, a refused check is the
    end, and a machine that finishes has had every check answered that its parameters call for. */
module HandshakeAlone {
  import opened Wire
  import opened Handshake
  import opened HandshakeAgreement

  // ---- which steps consult a check or callback ----

  predicate Head(inbox: seq<Item>, kind: MsgType) {
    inbox != [] && inbox[0].Message? && inbox[0].kind == kind
  }

  /** The client's next step depends on an answer: a message of the awaited type is to be judged, a
      certificate chain to be verified, a key or a signature to be made. */
  predicate ClientAsks(p: Params, e: End<ClientState>, inbox: seq<Item>) {
    e.wait == Ready &&
    match e.state
    case CReadServerHello => Head(inbox, ServerHello)
    case CReadCertificate => p.certAuth && Head(inbox, Certificate)
    case CReadStatus => p.statusExpected && Head(inbox, CertificateStatus)
    case CVerifyCertificate => p.certAuth
    case CReadKeyExchange => SendsSke(p) && Head(inbox, ServerKeyExchange)
    case CReadRequest => p.certAuth && Head(inbox, CertificateRequest)
    case CReadHelloDone => Head(inbox, ServerHelloDone)
    case CSendCertificate => e.certRequest
    case CSendKeyExchange => true
    case CSendVerify => e.certRequest && p.clientHasCert
    case CSendFinished => p.channelId
    case CReadTicket => p.ticket && Head(inbox, NewSessionTicket)
    case _ => false
  }

  predicate ServerAsks(p: Params, e: End<ServerState>, inbox: seq<Item>) {
    e.wait == Ready &&
    match e.state
    case SReadClientHello => Head(inbox, ClientHello)
    case SSelectCertificate => inbox != []
    case SSelectParameters => inbox != []
    case SSendCertificate => true
    case SSendKeyExchange => SendsSke(p)
    case SReadCertificate => e.certRequest && Head(inbox, Certificate)
    case SVerifyCertificate => e.peerCert
    case SReadKeyExchange => Head(inbox, ClientKeyExchange)
    case SReadVerify => e.peerCert && Head(inbox, CertificateVerify)
    case SReadNextProto => p.nextProto && Head(inbox, NextProto)
    case SReadChannelId => p.channelId && Head(inbox, ChannelId)
    case _ => false
  }

  /** An answer matters where one is asked for and nowhere else; a refusal fails the handshake on
      the spot, and a postponed answer leaves everything as it was. */
  lemma {:induction false} ClientHeeds(p: Params, e: End<ClientState>, inbox: seq<Item>, v: Verdict,
      pay: MsgType -> seq<byte>)
    ensures var o := ClientStep(p, e, inbox, v, pay);
            && (!ClientAsks(p, e, inbox) ==> o == ClientStep(p, e, inbox, Proceed, pay))
            && (ClientAsks(p, e, inbox) && v == Refuse ==> o == Outcome(e.(wait := Failed(Refused)), false))
            && (ClientAsks(p, e, inbox) && v == Retry ==> o == Outcome(e, false))
  {
    hide Take, Add, AddIf, AddFinished;
  }

  /** The one exception: the server's own certificate, whose step cannot be postponed. */
  lemma {:induction false} ServerHeeds(p: Params, e: End<ServerState>, inbox: seq<Item>, v: Verdict,
      pay: MsgType -> seq<byte>)
    ensures var o := ServerStep(p, e, inbox, v, pay);
            && (!ServerAsks(p, e, inbox) ==> o == ServerStep(p, e, inbox, Proceed, pay))
            && (ServerAsks(p, e, inbox) && v == Refuse ==> o == Outcome(e.(wait := Failed(Refused)), false))
            && (ServerAsks(p, e, inbox) && v == Retry && !e.state.SSendCertificate? ==> o == Outcome(e, false))
  {
    hide Take, Add, AddIf, AddFinished;
  }

  // ---- runs of one machine ----

  /** A machine with what has arrived and not been taken, the history of what it heard and said, and
      the history of its questions: the state that asked, and the answer. */
  datatype Solo<S> = Solo(end: End<S>, inbox: seq<Item>, log: seq<Entry>, asked: seq<(S, Verdict)>)

  datatype Happening =
    | Arrive(items: seq<Item>)
    | Call(v: Verdict, pay: MsgType -> seq<byte>)
    | Drain(k: nat)

  function Begun<S>(start: S): Solo<S> {
    Solo(End(start, Ready, [], [], 0, false, false, 0), [], [], [])
  }

  /** What one step adds to the history. */
  function Recorded<S>(s: Solo<S>, o: Outcome<S>, me: Side, asks: bool, v: Verdict): Solo<S> {
    var took := o.took && s.inbox != [];
    Solo(o.end, if took then s.inbox[1..] else s.inbox,
         s.log + (if took then [Entry(Other(me), s.inbox[0])] else []) + By(me, Fresh(s.end.flight, o.end.flight)),
         if asks then s.asked + [(s.end.state, v)] else s.asked)
  }

  function Drained<S>(s: Solo<S>, k: nat): Solo<S> {
    if k <= |s.end.flight| then s.(end := Flushed(s.end, k)) else s
  }

  function ClientTurn(p: Params, s: Solo<ClientState>, h: Happening): Solo<ClientState> {
    match h
    case Arrive(items) => s.(inbox := s.inbox + items)
    case Call(v, pay) =>
      Recorded(s, ClientStep(p, s.end, s.inbox, v, pay), Client, ClientAsks(p, s.end, s.inbox), v)
    case Drain(k) => Drained(s, k)
  }

  function ServerTurn(p: Params, s: Solo<ServerState>, h: Happening): Solo<ServerState> {
    match h
    case Arrive(items) => s.(inbox := s.inbox + items)
    case Call(v, pay) =>
      Recorded(s, ServerStep(p, s.end, s.inbox, v, pay), Server, ServerAsks(p, s.end, s.inbox), v)
    case Drain(k) => Drained(s, k)
  }

  function ClientAlone(p: Params, hs: seq<Happening>): Solo<ClientState> {
    if hs == [] then Begun(CStart) else ClientTurn(p, ClientAlone(p, hs[..|hs| - 1]), hs[|hs| - 1])
  }

  function ServerAlone(p: Params, hs: seq<Happening>): Solo<ServerState> {
    if hs == [] then Begun(SStart) else ServerTurn(p, ServerAlone(p, hs[..|hs| - 1]), hs[|hs| - 1])
  }

  // ---- a refusal is the end ----

  /** A refusal is the last answer, and the machine has failed and stands where it asked. */
  ghost predicate RefusalIsFinal<S>(s: Solo<S>) {
    forall i :: 0 <= i < |s.asked| && s.asked[i].1 == Refuse ==>
      i == |s.asked| - 1 && s.end.wait == Failed(Refused) && s.end.state == s.asked[i].0
  }

  lemma {:induction false} StaysRefused<S>(s: Solo<S>, t: Solo<S>)
    requires RefusalIsFinal(s) && t.asked == s.asked
    requires s.end.wait == Failed(Refused) ==> t.end.wait == Failed(Refused) && t.end.state == s.end.state
    ensures RefusalIsFinal(t)
  {
  }

  lemma {:induction false} AsksAgain<S>(s: Solo<S>, o: Outcome<S>, me: Side, v: Verdict)
    requires RefusalIsFinal(s) && s.end.wait == Ready
    requires v == Refuse ==> o.end == s.end.(wait := Failed(Refused))
    ensures RefusalIsFinal(Recorded(s, o, me, true, v))
  {
    var t := Recorded(s, o, me, true, v);
    assert forall i :: 0 <= i < |s.asked| ==> t.asked[i] == s.asked[i];
  }

  /** Neither machine moves once it has failed. */
  lemma {:induction false} FailedMachineStays(p: Params, c: End<ClientState>, s: End<ServerState>, inbox: seq<Item>,
      v: Verdict, pay: MsgType -> seq<byte>)
    ensures c.wait.Failed? ==> ClientStep(p, c, inbox, v, pay) == Outcome(c, false)
    ensures s.wait.Failed? ==> ServerStep(p, s, inbox, v, pay) == Outcome(s, false)
  {
    hide ClientDo, ServerDo;
  }

  lemma {:induction false} ClientTurnRefuses(p: Params, s: Solo<ClientState>, h: Happening)
    requires RefusalIsFinal(s)
    ensures RefusalIsFinal(ClientTurn(p, s, h))
  {
    hide RefusalIsFinal, ClientStep, By;
    match h
    case Call(v, pay) =>
      var o := ClientStep(p, s.end, s.inbox, v, pay);
      ClientHeeds(p, s.end, s.inbox, v, pay);
      FailedMachineStays(p, s.end, Begun(SStart).end, s.inbox, v, pay);
      if ClientAsks(p, s.end, s.inbox) {
        AsksAgain(s, o, Client, v);
      } else {
        StaysRefused(s, ClientTurn(p, s, h));
      }
    case _ => StaysRefused(s, ClientTurn(p, s, h));
  }

  lemma {:induction false} ServerTurnRefuses(p: Params, s: Solo<ServerState>, h: Happening)
    requires RefusalIsFinal(s)
    ensures RefusalIsFinal(ServerTurn(p, s, h))
  {
    hide RefusalIsFinal, ServerStep, By;
    match h
    case Call(v, pay) =>
      var o := ServerStep(p, s.end, s.inbox, v, pay);
      ServerHeeds(p, s.end, s.inbox, v, pay);
      FailedMachineStays(p, Begun(CStart).end, s.end, s.inbox, v, pay);
      if ServerAsks(p, s.end, s.inbox) {
        AsksAgain(s, o, Server, v);
      } else {
        StaysRefused(s, ServerTurn(p, s, h));
      }
    case _ => StaysRefused(s, ServerTurn(p, s, h));
  }

  // ---- every check was passed ----

  /** The checks that lie on every way to the end. */
  predicate ClientMustAsk(p: Params, k: ClientState) {
    match k
    case CReadServerHello => true
    case CReadCertificate => p.certAuth && !p.resume
    case CVerifyCertificate => p.certAuth && !p.resume
    case CReadKeyExchange => p.requiresSke && !p.resume
    case CReadHelloDone => !p.resume
    case CSendKeyExchange => !p.resume
    case CSendFinished => p.channelId
    case CReadTicket => p.ticket
    case _ => false
  }

  /** For a server, also those that a client certificate brings with it. */
  predicate ServerMustAsk(p: Params, peerCert: bool, k: ServerState) {
    match k
    case SReadClientHello => true
    case SSelectCertificate => true
    case SSelectParameters => true
    case SSendKeyExchange => SendsSke(p) && !p.resume
    case SReadCertificate => p.certRequest && !p.resume
    case SVerifyCertificate => peerCert
    case SReadKeyExchange => !p.resume
    case SReadVerify => peerCert
    case SReadNextProto => p.nextProto
    case SReadChannelId => p.channelId
    case _ => false
  }

  /** The states behind this one have asked and were told to go on. */
  ghost predicate ClientChecked(p: Params, s: Solo<ClientState>) {
    && (p.resume ==> !(11 <= Order(p, s.end.state) <= 26))
    && (forall i :: 0 <= i < |s.asked| ==> s.asked[i].0 != CDone)
    && forall k {:trigger ClientMustAsk(p, k)} ::
         ClientMustAsk(p, k) && Order(p, s.end.state) < Order(p, k) ==> (k, Proceed) in s.asked
  }

  ghost predicate ServerChecked(p: Params, s: Solo<ServerState>) {
    var n := OrderS(p, s.end.state);
    && (p.resume ==> !(19 <= n <= 25) && !s.end.peerCert)
    && (n <= 26 ==> s.end.certRequest == (p.certRequest && !p.resume))
    && (n >= 22 ==> !s.end.peerCert)
    && (forall i :: 0 <= i < |s.asked| ==> s.asked[i].0 != SDone)
    && forall k {:trigger ServerMustAsk(p, s.end.peerCert, k)} ::
         ServerMustAsk(p, s.end.peerCert, k) && n < OrderS(p, k) ==> (k, Proceed) in s.asked
  }

  /** Adding to the flight leaves state, wait and flags alone. */
  lemma {:induction false} AddsKeep<S(!new)>()
    ensures forall e: End<S>, item {:trigger Add(e, item)} :: var f := Add(e, item);
              f.state == e.state && f.wait == e.wait && f.certRequest == e.certRequest && f.peerCert == e.peerCert
    ensures forall e: End<S>, present, kind, bytes {:trigger AddIf(e, present, kind, bytes)} ::
              var f := AddIf(e, present, kind, bytes);
              f.state == e.state && f.wait == e.wait && f.certRequest == e.certRequest && f.peerCert == e.peerCert
    ensures forall e: End<S>, fromServer {:trigger AddFinished(e, fromServer)} :: var f := AddFinished(e, fromServer);
              f.state == e.state && f.wait == e.wait && f.certRequest == e.certRequest && f.peerCert == e.peerCert
  {
    hide Hashed;
  }

  lemma {:induction false} TakeKeeps<S(!new)>()
    ensures forall e: End<S>, item {:trigger Take(e, item)} :: var f := Take(e, item);
              f.state == e.state && f.wait == e.wait && f.certRequest == e.certRequest && f.peerCert == e.peerCert
  {
    hide Hashed;
  }

  /** Where a client step may lead. */
  predicate ClientNext(p: Params, a: ClientState, b: ClientState) {
    match a
    case CStart => b == CEarlyData
    case CEarlyData => b == (if p.dtls then CReadHelloVerify else CReadServerHello)
    case CReadHelloVerify => b == CReadServerHello
    case CReadServerHello => b == if p.resume then CReadTicket else CReadCertificate
    case CReadCertificate => b == CReadStatus
    case CReadStatus => b == CVerifyCertificate
    case CVerifyCertificate => b == CReadKeyExchange
    case CReadKeyExchange => b == CReadRequest
    case CReadRequest => b == CReadHelloDone
    case CReadHelloDone => b == CSendCertificate
    case CSendCertificate => b == CSendKeyExchange
    case CSendKeyExchange => b == CSendVerify
    case CSendVerify => b == CSendFinished
    case CSendFinished => b == CFinishFlight
    case CFinishFlight => b == if p.resume then CFinish else CReadTicket
    case CReadTicket => b == CProcessCcs
    case CProcessCcs => b == CReadFinished
    case CReadFinished => b == if p.resume then CSendFinished else CFinish
    case CFinish => b == CDone
    case CDone => false
  }

  /** Reading a message leads on only if it is of the awaited type and the answer is to go on. */
  lemma {:induction false} ReadingGoes<S(!new)>(e: End<S>, inbox: seq<Item>, v: Verdict)
    ensures forall kind, next {:trigger Expect(e, inbox, kind, v, next)} ::
              var o := Expect(e, inbox, kind, v, next);
              && (o.end.state == e.state || (o.end.state == next && Head(inbox, kind) && v == Proceed))
              && o.end.certRequest == e.certRequest && o.end.peerCert == e.peerCert
              && (o.took ==> o.end.state == next)
    ensures forall fromServer, next {:trigger ExpectFinished(e, inbox, fromServer, next)} ::
              var o := ExpectFinished(e, inbox, fromServer, next);
              && (o.end.state == e.state || o.end.state == next)
              && o.end.certRequest == e.certRequest && o.end.peerCert == e.peerCert
  {
    hide Hashed;
  }

  /** A step stays, or goes where it may, past a check only if the answer was to go on. */
  ghost predicate ClientGoesRight(p: Params, e: End<ClientState>, inbox: seq<Item>, v: Verdict, b: ClientState) {
    || b == e.state
    || (ClientNext(p, e.state, b) && (ClientMustAsk(p, e.state) ==> ClientAsks(p, e, inbox) && v == Proceed))
  }

  lemma {:induction false} ClientBeginGoes(p: Params, e: End<ClientState>, inbox: seq<Item>, v: Verdict,
      pay: MsgType -> seq<byte>)
    requires e.wait == Ready
    requires e.state.CStart? || e.state.CEarlyData? || e.state.CReadHelloVerify? || e.state.CFinishFlight?
        || e.state.CProcessCcs? || e.state.CFinish? || e.state.CDone?
    ensures ClientGoesRight(p, e, inbox, v, ClientDo(p, e, inbox, v, pay).end.state)
  {
    hide Hashed, Expect, ExpectFinished, Take, Add, AddIf, AddFinished;
    AddsKeep<ClientState>();
  }

  lemma {:induction false} ClientHearsGoes(p: Params, e: End<ClientState>, inbox: seq<Item>, v: Verdict,
      pay: MsgType -> seq<byte>)
    requires e.wait == Ready
    requires e.state.CReadServerHello? || e.state.CReadCertificate? || e.state.CReadStatus?
        || e.state.CVerifyCertificate?
    ensures ClientGoesRight(p, e, inbox, v, ClientDo(p, e, inbox, v, pay).end.state)
  {
    hide Hashed, Expect, ExpectFinished, Take, Add, AddIf, AddFinished;
    ReadingGoes(e, inbox, v);
  }

  lemma {:induction false} ClientAsksGoes(p: Params, e: End<ClientState>, inbox: seq<Item>, v: Verdict,
      pay: MsgType -> seq<byte>)
    requires e.wait == Ready
    requires e.state.CReadKeyExchange? || e.state.CReadRequest? || e.state.CReadHelloDone?
    ensures ClientGoesRight(p, e, inbox, v, ClientDo(p, e, inbox, v, pay).end.state)
  {
    hide Hashed, Expect, ExpectFinished, Take, Add, AddIf, AddFinished;
    ReadingGoes(e, inbox, v);
  }

  lemma {:induction false} ClientSendGoes(p: Params, e: End<ClientState>, inbox: seq<Item>, v: Verdict,
      pay: MsgType -> seq<byte>)
    requires e.wait == Ready
    requires e.state.CSendCertificate? || e.state.CSendKeyExchange? || e.state.CSendVerify?
        || e.state.CSendFinished?
    ensures ClientGoesRight(p, e, inbox, v, ClientDo(p, e, inbox, v, pay).end.state)
  {
    hide Hashed, Expect, ExpectFinished, Take, Add, AddIf, AddFinished;
    AddsKeep<ClientState>();
  }

  lemma {:induction false} ClientEndGoes(p: Params, e: End<ClientState>, inbox: seq<Item>, v: Verdict,
      pay: MsgType -> seq<byte>)
    requires e.wait == Ready
    requires e.state.CReadTicket? || e.state.CReadFinished?
    ensures ClientGoesRight(p, e, inbox, v, ClientDo(p, e, inbox, v, pay).end.state)
  {
    hide Hashed, Expect, ExpectFinished, Take, Add, AddIf, AddFinished;
    ReadingGoes(e, inbox, v);
  }

  lemma {:induction false} ClientGoes(p: Params, e: End<ClientState>, inbox: seq<Item>, v: Verdict,
      pay: MsgType -> seq<byte>)
    ensures ClientGoesRight(p, e, inbox, v, ClientStep(p, e, inbox, v, pay).end.state)
  {
    TakeKeeps<ClientState>();
    hide ClientDo, Take, ClientNext, ClientMustAsk, ClientAsks;
    if e.wait == Ready {
      hide ClientGoesRight;
      match e.state
      case CReadServerHello => ClientHearsGoes(p, e, inbox, v, pay);
      case CReadCertificate => ClientHearsGoes(p, e, inbox, v, pay);
      case CReadStatus => ClientHearsGoes(p, e, inbox, v, pay);
      case CVerifyCertificate => ClientHearsGoes(p, e, inbox, v, pay);
      case CReadKeyExchange => ClientAsksGoes(p, e, inbox, v, pay);
      case CReadRequest => ClientAsksGoes(p, e, inbox, v, pay);
      case CReadHelloDone => ClientAsksGoes(p, e, inbox, v, pay);
      case CSendCertificate => ClientSendGoes(p, e, inbox, v, pay);
      case CSendKeyExchange => ClientSendGoes(p, e, inbox, v, pay);
      case CSendVerify => ClientSendGoes(p, e, inbox, v, pay);
      case CSendFinished => ClientSendGoes(p, e, inbox, v, pay);
      case CReadTicket => ClientEndGoes(p, e, inbox, v, pay);
      case CReadFinished => ClientEndGoes(p, e, inbox, v, pay);
      case _ => ClientBeginGoes(p, e, inbox, v, pay);
    }
  }

  lemma {:induction false} ClientOrder(p: Params, a: ClientState, b: ClientState, k: ClientState)
    requires (p.resume ==> !(11 <= Order(p, a) <= 26)) && ClientNext(p, a, b)
    ensures p.resume ==> !(11 <= Order(p, b) <= 26)
    ensures ClientMustAsk(p, k) && Order(p, b) < Order(p, k) <= Order(p, a) ==> k == a
  {
  }

  lemma {:induction false} ClientTurnChecks(p: Params, s: Solo<ClientState>, h: Happening)
    requires ClientChecked(p, s)
    ensures ClientChecked(p, ClientTurn(p, s, h))
  {
    assert ClientAsks(p, s.end, s.inbox) ==> s.end.state != CDone;
    hide ClientStep, By, ClientNext, ClientMustAsk, ClientAsks;
    if h.Call? {
      ClientGoes(p, s.end, s.inbox, h.v, h.pay);
      var b := ClientStep(p, s.end, s.inbox, h.v, h.pay).end.state;
      var t := ClientTurn(p, s, h);
      if b != s.end.state {
        ClientOrder(p, s.end.state, b, CDone);
        forall k {:trigger ClientMustAsk(p, k)} | ClientMustAsk(p, k) && Order(p, b) < Order(p, k)
          ensures (k, Proceed) in t.asked
        {
          ClientOrder(p, s.end.state, b, k);
          if k == s.end.state {
            assert t.asked[|s.asked|] == (k, Proceed);
          } else {
            assert (k, Proceed) in s.asked;
          }
        }
      }
    }
  }

  // ---- the same for the server ----

  predicate ServerNext(p: Params, a: ServerState, b: ServerState) {
    match a
    case SStart => b == SReadClientHello
    case SReadClientHello => b == SSelectCertificate
    case SSelectCertificate => b == SSelectParameters
    case SSelectParameters => b == SSendHello
    case SSendHello => b == if p.resume then SSendFinished else SSendCertificate
    case SSendCertificate => b == SSendKeyExchange
    case SSendKeyExchange => b == SSendHelloDone
    case SSendHelloDone => b == SReadCertificate
    case SReadCertificate => b == SVerifyCertificate
    case SVerifyCertificate => b == SReadKeyExchange
    case SReadKeyExchange => b == SReadVerify
    case SReadVerify => b == SReadCcs
    case SReadCcs => b == SProcessCcs
    case SProcessCcs => b == SReadNextProto
    case SReadNextProto => b == SReadChannelId
    case SReadChannelId => b == SReadFinished
    case SReadFinished => b == if p.resume then SFinish else SSendFinished
    case SSendFinished => b == if p.resume then SReadCcs else SFinish
    case SFinish => b == SDone
    case SDone => false
  }

  ghost predicate ServerGoesRight(p: Params, e: End<ServerState>, inbox: seq<Item>, v: Verdict, f: End<ServerState>) {
    && (f.state == e.state || (ServerNext(p, e.state, f.state)
        && (ServerMustAsk(p, e.peerCert, e.state) ==> ServerAsks(p, e, inbox) && v == Proceed)))
    && (f.peerCert != e.peerCert ==> e.certRequest && e.state.SReadCertificate? && f.state.SVerifyCertificate?)
    && f.certRequest == if e.state.SSelectParameters? && f.state.SSendHello? then p.certRequest && !p.resume
                        else e.certRequest
  }

  lemma {:induction false} ServerBeginGoes(p: Params, e: End<ServerState>, inbox: seq<Item>, v: Verdict,
      pay: MsgType -> seq<byte>)
    requires e.wait == Ready && (e.state.SReadCertificate? ==> e.certRequest == p.certRequest && !p.resume)
    requires e.state.SStart? || e.state.SReadClientHello? || e.state.SSelectCertificate?
        || e.state.SSelectParameters?
    ensures ServerGoesRight(p, e, inbox, v, ServerDo(p, e, inbox, v, pay).end)
  {
    hide Hashed, Expect, ExpectFinished, Take, Add, AddIf, AddFinished;
    TakeKeeps<ServerState>();
  }

  lemma {:induction false} ServerSendGoes(p: Params, e: End<ServerState>, inbox: seq<Item>, v: Verdict,
      pay: MsgType -> seq<byte>)
    requires e.wait == Ready && (e.state.SReadCertificate? ==> e.certRequest == p.certRequest && !p.resume)
    requires e.state.SSendHello? || e.state.SSendCertificate? || e.state.SSendKeyExchange?
        || e.state.SSendHelloDone? || e.state.SSendFinished?
    ensures ServerGoesRight(p, e, inbox, v, ServerDo(p, e, inbox, v, pay).end)
  {
    hide Hashed, Expect, ExpectFinished, Take, Add, AddIf, AddFinished;
    AddsKeep<ServerState>();
  }

  lemma {:induction false} ServerAnswerGoes(p: Params, e: End<ServerState>, inbox: seq<Item>, v: Verdict,
      pay: MsgType -> seq<byte>)
    requires e.wait == Ready && (e.state.SReadCertificate? ==> e.certRequest == p.certRequest && !p.resume)
    requires e.state.SReadCertificate? || e.state.SVerifyCertificate? || e.state.SReadKeyExchange?
        || e.state.SReadVerify?
    ensures ServerGoesRight(p, e, inbox, v, ServerDo(p, e, inbox, v, pay).end)
  {
    hide Hashed, Expect, ExpectFinished, Take, Add, AddIf, AddFinished;
    ReadingGoes(e, inbox, v);
  }

  lemma {:induction false} ServerEndGoes(p: Params, e: End<ServerState>, inbox: seq<Item>, v: Verdict,
      pay: MsgType -> seq<byte>)
    requires e.wait == Ready && (e.state.SReadCertificate? ==> e.certRequest == p.certRequest && !p.resume)
    requires e.state.SReadCcs? || e.state.SProcessCcs? || e.state.SReadNextProto? || e.state.SReadChannelId?
        || e.state.SReadFinished? || e.state.SFinish? || e.state.SDone?
    ensures ServerGoesRight(p, e, inbox, v, ServerDo(p, e, inbox, v, pay).end)
  {
    hide Hashed, Expect, ExpectFinished, Take, Add, AddIf, AddFinished;
    ReadingGoes(e, inbox, v);
  }

  lemma {:induction false} ServerGoes(p: Params, e: End<ServerState>, inbox: seq<Item>, v: Verdict,
      pay: MsgType -> seq<byte>)
    requires var n := OrderS(p, e.state);
             (n <= 26 ==> e.certRequest == (p.certRequest && !p.resume)) && (p.resume ==> !(19 <= n <= 25))
    ensures ServerGoesRight(p, e, inbox, v, ServerStep(p, e, inbox, v, pay).end)
  {
    TakeKeeps<ServerState>();
    assert OrderS(p, SReadCertificate) == 22;
    hide ServerDo, Take, ServerNext, ServerMustAsk, ServerAsks;
    if e.wait == Ready {
      hide ServerGoesRight;
      match e.state
      case SStart => ServerBeginGoes(p, e, inbox, v, pay);
      case SReadClientHello => ServerBeginGoes(p, e, inbox, v, pay);
      case SSelectCertificate => ServerBeginGoes(p, e, inbox, v, pay);
      case SSelectParameters => ServerBeginGoes(p, e, inbox, v, pay);
      case SSendHello => ServerSendGoes(p, e, inbox, v, pay);
      case SSendCertificate => ServerSendGoes(p, e, inbox, v, pay);
      case SSendKeyExchange => ServerSendGoes(p, e, inbox, v, pay);
      case SSendHelloDone => ServerSendGoes(p, e, inbox, v, pay);
      case SSendFinished => ServerSendGoes(p, e, inbox, v, pay);
      case SReadCertificate => ServerAnswerGoes(p, e, inbox, v, pay);
      case SVerifyCertificate => ServerAnswerGoes(p, e, inbox, v, pay);
      case SReadKeyExchange => ServerAnswerGoes(p, e, inbox, v, pay);
      case SReadVerify => ServerAnswerGoes(p, e, inbox, v, pay);
      case _ => ServerEndGoes(p, e, inbox, v, pay);
    }
  }

  lemma {:induction false} ServerOrder(p: Params, a: ServerState, b: ServerState, peerCert: bool, k: ServerState)
    requires (p.resume ==> !(19 <= OrderS(p, a) <= 25) && !peerCert) && ServerNext(p, a, b)
    ensures p.resume ==> !(19 <= OrderS(p, b) <= 25)
    ensures OrderS(p, b) < OrderS(p, a) && (OrderS(p, a) >= 27 <==> OrderS(p, b) >= 26)
    ensures OrderS(p, b) >= 22 ==> OrderS(p, a) >= 22
    ensures ServerMustAsk(p, peerCert, k) && OrderS(p, b) < OrderS(p, k) <= OrderS(p, a) ==> k == a
  {
  }

  lemma {:induction false} ServerTurnChecks(p: Params, s: Solo<ServerState>, h: Happening)
    requires ServerChecked(p, s)
    ensures ServerChecked(p, ServerTurn(p, s, h))
  {
    assert ServerAsks(p, s.end, s.inbox) ==> s.end.state != SDone;
    hide ServerStep, By, ServerNext, ServerMustAsk, ServerAsks;
    if h.Call? {
      ServerGoes(p, s.end, s.inbox, h.v, h.pay);
      var f := ServerStep(p, s.end, s.inbox, h.v, h.pay).end;
      var t := ServerTurn(p, s, h);
      if f.state != s.end.state {
        ServerOrder(p, s.end.state, f.state, s.end.peerCert, SDone);
        forall k {:trigger ServerMustAsk(p, f.peerCert, k)}
          | ServerMustAsk(p, f.peerCert, k) && OrderS(p, f.state) < OrderS(p, k)
          ensures (k, Proceed) in t.asked
        {
          NewlyMust(p, s.end, f, k);
          ServerOrder(p, s.end.state, f.state, s.end.peerCert, k);
          if k == s.end.state {
            assert t.asked[|s.asked|] == (k, Proceed);
          } else {
            assert (k, Proceed) in s.asked;
          }
        }
      }
    }
  }

  /** A certificate that has just come in brings no check that is already behind. */
  lemma {:induction false} NewlyMust(p: Params, e: End<ServerState>, f: End<ServerState>, k: ServerState)
    requires f.peerCert != e.peerCert ==> e.state.SReadCertificate? && f.state.SVerifyCertificate?
    requires OrderS(p, e.state) >= 22 ==> !e.peerCert
    requires ServerMustAsk(p, f.peerCert, k) && OrderS(p, f.state) < OrderS(p, k)
    ensures ServerMustAsk(p, e.peerCert, k)
  {
  }

  // ---- the theorems ----

  lemma {:induction false} ClientRunChecks(p: Params, hs: seq<Happening>)
    ensures RefusalIsFinal(ClientAlone(p, hs)) && ClientChecked(p, ClientAlone(p, hs))
  {
    hide ClientTurn;
    if hs != [] {
      ClientRunChecks(p, hs[..|hs| - 1]);
      ClientTurnRefuses(p, ClientAlone(p, hs[..|hs| - 1]), hs[|hs| - 1]);
      ClientTurnChecks(p, ClientAlone(p, hs[..|hs| - 1]), hs[|hs| - 1]);
    } else {
      forall k
        ensures Order(p, k) <= Order(p, CStart)
      {
        NoneBefore(p, k, SStart);
      }
    }
  }

  lemma {:induction false} ServerRunChecks(p: Params, hs: seq<Happening>)
    ensures RefusalIsFinal(ServerAlone(p, hs)) && ServerChecked(p, ServerAlone(p, hs))
  {
    hide ServerTurn;
    if hs != [] {
      ServerRunChecks(p, hs[..|hs| - 1]);
      ServerTurnRefuses(p, ServerAlone(p, hs[..|hs| - 1]), hs[|hs| - 1]);
      ServerTurnChecks(p, ServerAlone(p, hs[..|hs| - 1]), hs[|hs| - 1]);
    } else {
      forall k
        ensures OrderS(p, k) <= OrderS(p, SStart)
      {
        NoneBefore(p, CStart, k);
      }
    }
  }

  lemma {:induction false} NoneBefore(p: Params, c: ClientState, s: ServerState)
    ensures Order(p, c) <= Order(p, CStart) && OrderS(p, s) <= OrderS(p, SStart)
  {
  }

  /** A client that has these histories: refused once, it has failed where it asked, for good; done,
      it was told to go on by every check its parameters call for. */
  ghost predicate ClientAnswered(p: Params, s: Solo<ClientState>) {
    && (forall i :: 0 <= i < |s.asked| && s.asked[i].1 == Refuse ==>
          s.end.wait == Failed(Refused) && s.end.state == s.asked[i].0 && s.end.state != CDone)
    && (s.end.state == CDone ==>
          && (forall k {:trigger ClientMustAsk(p, k)} :: ClientMustAsk(p, k) ==> (k, Proceed) in s.asked)
          && (p.certAuth && !p.resume ==> (CVerifyCertificate, Proceed) in s.asked))
  }

  ghost predicate ServerAnswered(p: Params, s: Solo<ServerState>) {
    && (forall i :: 0 <= i < |s.asked| && s.asked[i].1 == Refuse ==>
          s.end.wait == Failed(Refused) && s.end.state == s.asked[i].0 && s.end.state != SDone)
    && (s.end.state == SDone ==>
          && (forall k {:trigger ServerMustAsk(p, s.end.peerCert, k)} ::
                ServerMustAsk(p, s.end.peerCert, k) ==> (k, Proceed) in s.asked)
          && (p.certRequest && !p.resume ==> (SReadCertificate, Proceed) in s.asked)
          && (s.end.peerCert ==> (SVerifyCertificate, Proceed) in s.asked && (SReadVerify, Proceed) in s.asked))
  }

  lemma {:induction false} ClientChecksAnswered(p: Params, s: Solo<ClientState>)
    requires RefusalIsFinal(s) && ClientChecked(p, s)
    ensures ClientAnswered(p, s)
  {
    assert ClientMustAsk(p, CVerifyCertificate) <==> p.certAuth && !p.resume;
    assert forall k :: ClientMustAsk(p, k) ==> Order(p, CDone) < Order(p, k);
    hide ClientMustAsk, Order;
  }

  lemma {:induction false} ServerChecksAnswered(p: Params, s: Solo<ServerState>)
    requires RefusalIsFinal(s) && ServerChecked(p, s)
    ensures ServerAnswered(p, s)
  {
    var peerCert := s.end.peerCert;
    assert ServerMustAsk(p, peerCert, SReadCertificate) <==> p.certRequest && !p.resume;
    assert ServerMustAsk(p, peerCert, SVerifyCertificate) <==> peerCert;
    assert ServerMustAsk(p, peerCert, SReadVerify) <==> peerCert;
    assert forall k :: ServerMustAsk(p, peerCert, k) ==> OrderS(p, SDone) < OrderS(p, k);
    hide ServerMustAsk, OrderS;
  }

  /** Against any peer, whatever it sends and whenever it is called: a client that was refused once
      has failed where it asked and is never done; and a client that is done was told to go on by
      every check its parameters call for, the verification of the peer's certificate among them. */
  lemma {:induction false} ClientIsChecked(p: Params, hs: seq<Happening>)
    ensures ClientAnswered(p, ClientAlone(p, hs))
  {
    ClientRunChecks(p, hs);
    ClientChecksAnswered(p, ClientAlone(p, hs));
  }

  /** The same for a server. If the peer sent a certificate, verifying it and its CertificateVerify
      are among the checks. */
  lemma {:induction false} ServerIsChecked(p: Params, hs: seq<Happening>)
    ensures ServerAnswered(p, ServerAlone(p, hs))
  {
    ServerRunChecks(p, hs);
    ServerChecksAnswered(p, ServerAlone(p, hs));
  }
}
