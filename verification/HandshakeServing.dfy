/** The server machine keeps step with the script. */
module HandshakeServing {
  import opened Wire
  import opened Handshake
  import opened HandshakeAgreement

  ghost predicate ControlS(p: Params, e: End<ServerState>) {
    var k := OrderS(p, e.state);
    && (19 <= k <= 26 ==> e.certRequest == (p.certRequest && !p.resume))
    && (22 <= k ==> !e.peerCert)
    && (19 <= k <= 21 ==> e.peerCert == (p.certRequest && p.clientHasCert))
    && (19 <= k <= 25 ==> !p.resume)
    && (e.wait == Flushing ==> e.state == SReadCertificate || e.state == SReadCcs || e.state == SFinish)
    && (e.wait == AwaitCcs ==> e.state == SProcessCcs)
    && |e.flight| <= e.added <= MaxAddedS(p, e)
  }

  function MaxAddedS(p: Params, e: End<ServerState>): nat {
    if e.wait == Flushing then 7
    else
      match e.state
      case SSendCertificate => 1
      case SSendKeyExchange => 3
      case SSendHelloDone => 4
      case SSendFinished => if p.resume then 1 else 0
      case _ => 0
  }

  ghost predicate AtS(p: Params, script: seq<Want>, e: End<ServerState>) {
    e.n <= |script| && script[e.n..] == LeftS(p, e) && ControlS(p, e)
  }

  ghost predicate ServerStepOk(p: Params, script: seq<Want>, e: End<ServerState>, inbox: seq<Item>,
      o: Outcome<ServerState>) {
    Moved(p, script, Server, e, inbox, o) && (!o.end.wait.Failed? ==> AtS(p, script, o.end))
  }

  lemma {:induction false} ServerPasses(p: Params, script: seq<Want>, e: End<ServerState>, inbox: seq<Item>,
      next: ServerState)
    requires AtS(p, script, e) && e.wait == Ready && RestS(p, e.state) == RestS(p, next)
        && ControlS(p, e.(state := next))
    ensures ServerStepOk(p, script, e, inbox, Outcome(e.(state := next), false))
  {
    hide RestS, Moved;
    StaysPut(p, script, Server, e, inbox, Outcome(e.(state := next), false));
  }

  lemma {:induction false} ServerExpects(p: Params, script: seq<Want>, e: End<ServerState>, inbox: seq<Item>,
      kind: MsgType, v: Verdict, next: ServerState)
    requires AtS(p, script, e) && e.wait == Ready
    requires HeadOk(script, e.n, Client, e.transcript, inbox, p.clientHasCert)
    requires RestS(p, e.state) == [ClientSays(kind)] + RestS(p, next) && ControlS(p, e.(state := next))
    ensures ServerStepOk(p, script, e, inbox, Expect(e, inbox, kind, v, next))
  {
    hide RestS, Moved, Expect, HeadOk;
    Advance(script, e.n, ClientSays(kind), RestS(p, next));
    ExpectMoves(p, script, Server, e, inbox, kind, v, next);
  }

  lemma {:induction false} ServerBegins(p: Params, script: seq<Want>, e: End<ServerState>, inbox: seq<Item>,
      v: Verdict, pay: MsgType -> seq<byte>)
    requires WFParams(p) && AtS(p, script, e) && e.wait == Ready
    requires HeadOk(script, e.n, Client, e.transcript, inbox, p.clientHasCert)
    requires e.state == SStart || e.state == SReadClientHello || e.state == SSelectCertificate
    ensures ServerStepOk(p, script, e, inbox, ServerDo(p, e, inbox, v, pay))
  {
    assert RestS(p, SStart) == RestS(p, SReadClientHello) == RestS(p, SSelectParameters);
    assert RestS(p, SSelectCertificate) == RestS(p, SSelectParameters);
    assert RestS(p, SSelectParameters) == [ClientSays(ClientHello)] + RestS(p, SSendHello);
    hide RestS, Moved;
    Advance(script, e.n, ClientSays(ClientHello), RestS(p, SSendHello));
    StaysPut(p, script, Server, e, inbox, Outcome(e, false));
    StaysPut(p, script, Server, e, inbox, Fail(e, Refused));
    match e.state
    case SStart => ServerPasses(p, script, e, inbox, SReadClientHello);
    case SReadClientHello => ServerPasses(p, script, e, inbox, SSelectCertificate);
    case SSelectCertificate => ServerPasses(p, script, e, inbox, SSelectParameters);
  }

  lemma {:induction false} TakeMoves(p: Params, script: seq<Want>, e: End<ServerState>, inbox: seq<Item>,
      next: ServerState, certRequest: bool)
    requires inbox != [] && e.wait == Ready
    ensures Moved(p, script, Server, e, inbox, Outcome(Take(e, inbox[0]).(state := next, certRequest := certRequest),
        true))
  {
    assert Fresh(e.flight, e.flight) == [];
  }

  lemma {:induction false} ServerSelects(p: Params, script: seq<Want>, e: End<ServerState>, inbox: seq<Item>,
      v: Verdict, pay: MsgType -> seq<byte>)
    requires WFParams(p) && AtS(p, script, e) && e.wait == Ready && e.state == SSelectParameters
    requires HeadOk(script, e.n, Client, e.transcript, inbox, p.clientHasCert)
    ensures ServerStepOk(p, script, e, inbox, ServerDo(p, e, inbox, v, pay))
  {
    assert RestS(p, SSelectParameters) == [ClientSays(ClientHello)] + RestS(p, SSendHello);
    hide RestS, Moved;
    Advance(script, e.n, ClientSays(ClientHello), RestS(p, SSendHello));
    StaysPut(p, script, Server, e, inbox, Outcome(e, false));
    StaysPut(p, script, Server, e, inbox, Fail(e, Refused));
    if inbox != [] {
      hide HeadOk;
      TakeMoves(p, script, e, inbox, SSendHello, p.certRequest && !p.resume);
    }
  }

  lemma {:induction false} HelloLine(p: Params)
    ensures RestS(p, SSendHello) == When(true, ServerSays(ServerHello))
        + RestS(p, if p.resume then SSendFinished else SSendCertificate)
  {
  }

  lemma {:induction false} ServerSendsHello(p: Params, script: seq<Want>, e: End<ServerState>, inbox: seq<Item>,
      v: Verdict, pay: MsgType -> seq<byte>)
    requires WFParams(p) && AtS(p, script, e) && e.wait == Ready && e.state == SSendHello
    ensures ServerStepOk(p, script, e, inbox, ServerDo(p, e, inbox, v, pay))
  {
    HelloLine(p);
    var next := if p.resume then SSendFinished else SSendCertificate;
    hide RestS, LinesS, Moved, HeadOk, Expect, ExpectFinished, Add, AddIf, AddFinished, Take, Hashed, When, WFParams,
        ServerLast, SendsSke;
    StaysPut(p, script, Server, e, inbox, Outcome(e, false));
    AddIfMoves(p, script, Server, e, inbox, e, true, ServerHello, pay(ServerHello), RestS(p, next));
    MovedIgnoresState(p, script, Server, e, inbox, Outcome(AddIf(e, true, ServerHello, pay(ServerHello)), false),
        next, Ready);
  }

  lemma {:induction false} CertificateLines(p: Params)
    ensures RestS(p, SSendCertificate) == When(p.certAuth, ServerSays(Certificate))
        + (When(p.sendsStatus, ServerSays(CertificateStatus)) + RestS(p, SSendKeyExchange))
  {
  }

  lemma {:induction false} ServerSendsCertificate(p: Params, script: seq<Want>, e: End<ServerState>, inbox: seq<Item>,
      v: Verdict, pay: MsgType -> seq<byte>)
    requires WFParams(p) && AtS(p, script, e) && e.wait == Ready && e.state == SSendCertificate
    ensures ServerStepOk(p, script, e, inbox, ServerDo(p, e, inbox, v, pay))
  {
    CertificateLines(p);
    var rest := When(p.sendsStatus, ServerSays(CertificateStatus)) + RestS(p, SSendKeyExchange);
    hide RestS, LinesS, Moved, HeadOk, Expect, ExpectFinished, Add, AddIf, AddFinished, Take, Hashed, When,
        ServerLast, SendsSke;
    StaysPut(p, script, Server, e, inbox, Outcome(e, false));
    StaysPut(p, script, Server, e, inbox, Fail(e, Refused));
    var a := AddIf(e, p.certAuth, Certificate, pay(Certificate));
    var b := AddIf(a, p.sendsStatus, CertificateStatus, pay(CertificateStatus));
    AddIfMoves(p, script, Server, e, inbox, e, p.certAuth, Certificate, pay(Certificate), rest);
    AddIfMoves(p, script, Server, e, inbox, a, p.sendsStatus, CertificateStatus, pay(CertificateStatus),
        RestS(p, SSendKeyExchange));
    MovedIgnoresState(p, script, Server, e, inbox, Outcome(b, false), SSendKeyExchange, Ready);
  }

  lemma {:induction false} KeyExchangeLine(p: Params)
    ensures RestS(p, SSendKeyExchange) == When(SendsSke(p), ServerSays(ServerKeyExchange)) + RestS(p, SSendHelloDone)
  {
  }

  lemma {:induction false} ServerSendsKeyExchange(p: Params, script: seq<Want>, e: End<ServerState>, inbox: seq<Item>,
      v: Verdict, pay: MsgType -> seq<byte>)
    requires WFParams(p) && AtS(p, script, e) && e.wait == Ready && e.state == SSendKeyExchange
    ensures ServerStepOk(p, script, e, inbox, ServerDo(p, e, inbox, v, pay))
  {
    KeyExchangeLine(p);
    hide RestS, LinesS, Moved, HeadOk, Expect, ExpectFinished, Add, AddIf, AddFinished, Take, Hashed, WFParams,
        ServerLast, SendsSke;
    StaysPut(p, script, Server, e, inbox, Outcome(e, false));
    StaysPut(p, script, Server, e, inbox, Fail(e, Refused));
    if SendsSke(p) {
      AddIfMoves(p, script, Server, e, inbox, e, true, ServerKeyExchange, pay(ServerKeyExchange),
          RestS(p, SSendHelloDone));
      MovedIgnoresState(p, script, Server, e, inbox,
          Outcome(AddIf(e, true, ServerKeyExchange, pay(ServerKeyExchange)), false), SSendHelloDone, Ready);
    } else {
      assert RestS(p, SSendKeyExchange) == RestS(p, SSendHelloDone);
      ServerPasses(p, script, e, inbox, SSendHelloDone);
    }
  }

  lemma {:induction false} HelloDoneLines(p: Params)
    ensures RestS(p, SSendHelloDone) == When(p.certRequest, ServerSays(CertificateRequest))
        + (When(true, ServerSays(ServerHelloDone)) + RestS(p, SReadCertificate))
  {
  }

  lemma {:induction false} ServerSendsHelloDone(p: Params, script: seq<Want>, e: End<ServerState>, inbox: seq<Item>,
      v: Verdict, pay: MsgType -> seq<byte>)
    requires WFParams(p) && AtS(p, script, e) && e.wait == Ready && e.state == SSendHelloDone
    ensures ServerStepOk(p, script, e, inbox, ServerDo(p, e, inbox, v, pay))
  {
    HelloDoneLines(p);
    var rest := When(true, ServerSays(ServerHelloDone)) + RestS(p, SReadCertificate);
    hide RestS, LinesS, Moved, HeadOk, Expect, ExpectFinished, Add, AddIf, AddFinished, Take, Hashed, When, WFParams,
        ServerLast, SendsSke;
    StaysPut(p, script, Server, e, inbox, Outcome(e, false));
    var a := AddIf(e, p.certRequest, CertificateRequest, pay(CertificateRequest));
    var b := AddIf(a, true, ServerHelloDone, pay(ServerHelloDone));
    AddIfMoves(p, script, Server, e, inbox, e, p.certRequest, CertificateRequest, pay(CertificateRequest), rest);
    AddIfMoves(p, script, Server, e, inbox, a, true, ServerHelloDone, pay(ServerHelloDone), RestS(p, SReadCertificate));
    MovedIgnoresState(p, script, Server, e, inbox, Outcome(b, false), SReadCertificate, Flushing);
  }

  lemma {:induction false} MovedIgnoresPeer(p: Params, script: seq<Want>, e: End<ServerState>, inbox: seq<Item>,
      o: Outcome<ServerState>)
    requires Moved(p, script, Server, e, inbox, o) && o.took
    ensures inbox != []
    ensures forall full :: Moved(p, script, Server, e, inbox, o.(end := o.end.(peerCert := full)))
  {
  }

  lemma {:induction false} ServerReadsCertificate(p: Params, script: seq<Want>, e: End<ServerState>, inbox: seq<Item>,
      v: Verdict, pay: MsgType -> seq<byte>)
    requires WFParams(p) && AtS(p, script, e) && e.wait == Ready && e.state == SReadCertificate
    requires HeadOk(script, e.n, Client, e.transcript, inbox, p.clientHasCert)
    ensures ServerStepOk(p, script, e, inbox, ServerDo(p, e, inbox, v, pay))
  {
    assert RestS(p, SReadCertificate) == When(p.certRequest, ClientSays(Certificate)) + RestS(p, SVerifyCertificate);
    hide RestS, Moved, Expect;
    if p.certRequest {
      Advance(script, e.n, ClientSays(Certificate), RestS(p, SVerifyCertificate));
      ExpectMoves(p, script, Server, e, inbox, Certificate, v, SVerifyCertificate);
      var o := Expect(e, inbox, Certificate, v, SVerifyCertificate);
      if o.took {
        MovedIgnoresPeer(p, script, e, inbox, o);
        var full := inbox[0].body.Chain? && inbox[0].body.certificates > 0;
        assert Moved(p, script, Server, e, inbox, o.(end := o.end.(peerCert := full)));
      }
    } else {
      assert RestS(p, SReadCertificate) == RestS(p, SVerifyCertificate);
      ServerPasses(p, script, e, inbox, SVerifyCertificate);
    }
  }

  lemma {:induction false} ServerReadsReply(p: Params, script: seq<Want>, e: End<ServerState>, inbox: seq<Item>,
      v: Verdict, pay: MsgType -> seq<byte>)
    requires WFParams(p) && AtS(p, script, e) && e.wait == Ready
    requires HeadOk(script, e.n, Client, e.transcript, inbox, p.clientHasCert)
    requires e.state == SVerifyCertificate || e.state == SReadKeyExchange || e.state == SReadVerify
    ensures ServerStepOk(p, script, e, inbox, ServerDo(p, e, inbox, v, pay))
  {
    assert RestS(p, SVerifyCertificate) == RestS(p, SReadKeyExchange) == [ClientSays(ClientKeyExchange)]
        + RestS(p, SReadVerify);
    assert RestS(p, SReadVerify) == When(p.certRequest && p.clientHasCert, ClientSays(CertificateVerify))
        + RestS(p, SReadCcs);
    hide RestS, Moved, Expect;
    match e.state
    case SVerifyCertificate =>
      StaysPut(p, script, Server, e, inbox, Outcome(e, false));
      StaysPut(p, script, Server, e, inbox, Fail(e, Refused));
      ServerPasses(p, script, e, inbox, SReadKeyExchange);
    case SReadKeyExchange =>
      ServerExpects(p, script, e, inbox, ClientKeyExchange, v, SReadVerify);
    case SReadVerify =>
      if p.certRequest && p.clientHasCert {
        ServerExpects(p, script, e, inbox, CertificateVerify, v, SReadCcs);
      } else {
        assert RestS(p, SReadVerify) == RestS(p, SReadCcs);
        ServerPasses(p, script, e, inbox, SReadCcs);
      }
  }

  lemma {:induction false} ServerReadsLast(p: Params, script: seq<Want>, e: End<ServerState>, inbox: seq<Item>,
      v: Verdict, pay: MsgType -> seq<byte>)
    requires WFParams(p) && AtS(p, script, e) && e.wait == Ready
    requires HeadOk(script, e.n, Client, e.transcript, inbox, p.clientHasCert)
    requires e.state == SReadCcs || e.state == SProcessCcs || e.state == SReadNextProto || e.state == SReadChannelId
    ensures ServerStepOk(p, script, e, inbox, ServerDo(p, e, inbox, v, pay))
  {
    hide RestS, Moved, HeadOk, Expect, ExpectFinished, Add, AddIf, AddFinished, Take, Hashed, WFParams, ServerLast,
        SendsSke;
    match e.state
    case SReadCcs =>
      UnfoldS(p, SReadCcs);
      assert RestS(p, SReadCcs) == [CcsBy(Client)] + RestS(p, SProcessCcs);
      StaysPut(p, script, Server, e, inbox, Outcome(e.(state := SProcessCcs, wait := AwaitCcs), false));
    case SProcessCcs =>
      UnfoldS(p, SProcessCcs);
      assert RestS(p, SProcessCcs) == RestS(p, SReadNextProto);
      ServerPasses(p, script, e, inbox, SReadNextProto);
    case SReadNextProto =>
      UnfoldS(p, SReadNextProto);
      assert RestS(p, SReadNextProto) == When(p.nextProto, ClientSays(NextProto)) + RestS(p, SReadChannelId);
      if p.nextProto {
        ServerExpects(p, script, e, inbox, NextProto, v, SReadChannelId);
      } else {
        assert RestS(p, SReadNextProto) == RestS(p, SReadChannelId);
        ServerPasses(p, script, e, inbox, SReadChannelId);
      }
    case SReadChannelId =>
      UnfoldS(p, SReadChannelId);
      assert RestS(p, SReadChannelId) == When(p.channelId, ClientSays(ChannelId)) + RestS(p, SReadFinished);
      if p.channelId {
        ServerExpects(p, script, e, inbox, ChannelId, v, SReadFinished);
      } else {
        assert RestS(p, SReadChannelId) == RestS(p, SReadFinished);
        ServerPasses(p, script, e, inbox, SReadFinished);
      }
  }

  lemma {:induction false} FinishedLine(p: Params)
    ensures RestS(p, SReadFinished) == [ClientSays(Finished)] + RestS(p, if p.resume then SFinish else SSendFinished)
    ensures RestS(p, SFinish) == [] && RestS(p, SDone) == []
  {
  }

  lemma {:induction false} ServerReadsFinished(p: Params, script: seq<Want>, e: End<ServerState>, inbox: seq<Item>,
      v: Verdict, pay: MsgType -> seq<byte>)
    requires AtS(p, script, e) && e.wait == Ready && (e.state == SReadFinished || e.state == SFinish
        || e.state == SDone)
    requires HeadOk(script, e.n, Client, e.transcript, inbox, p.clientHasCert)
    ensures ServerStepOk(p, script, e, inbox, ServerDo(p, e, inbox, v, pay))
  {
    FinishedLine(p);
    hide RestS, LinesS, Moved, HeadOk, Expect, ExpectFinished, Add, AddIf, AddFinished, Hashed, When, WFParams,
        ServerLast, SendsSke;
    StaysPut(p, script, Server, e, inbox, Outcome(e, false));
    match e.state
    case SReadFinished =>
      var next := if p.resume then SFinish else SSendFinished;
      Advance(script, e.n, ClientSays(Finished), RestS(p, next));
      FinishedMoves(p, script, Server, e, inbox, next);
    case SFinish =>
      ServerPasses(p, script, e, inbox, SDone);
    case SDone =>
  }

  lemma {:induction false} ServerLastSplit(p: Params, tail: seq<Want>)
    ensures ServerLast(p) + tail == When(p.ticket, ServerSays(NewSessionTicket))
        + ([CcsBy(Server)] + ([ServerSays(Finished)] + tail))
  {
    hide When;
  }

  lemma {:induction false} LastLines(p: Params)
    ensures RestS(p, SSendFinished) == ServerLast(p) + RestS(p, if p.resume then SReadCcs else SFinish)
  {
  }

  lemma {:induction false} ServerSendsLast(p: Params, script: seq<Want>, e: End<ServerState>, inbox: seq<Item>,
      v: Verdict, pay: MsgType -> seq<byte>)
    requires AtS(p, script, e) && e.wait == Ready && e.state == SSendFinished
    ensures ServerStepOk(p, script, e, inbox, ServerDo(p, e, inbox, v, pay))
  {
    LastLines(p);
    hide RestS, LinesS, Moved, HeadOk, Expect, ExpectFinished, Add, AddIf, AddFinished, Take, Hashed, When, WFParams,
        ServerLast, SendsSke;
    var next := if p.resume then SReadCcs else SFinish;
    var tail := RestS(p, next);
    ServerLastSplit(p, tail);
    StaysPut(p, script, Server, e, inbox, Outcome(e, false));
    var a := AddIf(e, p.ticket, NewSessionTicket, pay(NewSessionTicket));
    var b := Add(a, ChangeCipherSpec);
    AddIfMoves(p, script, Server, e, inbox, e, p.ticket, NewSessionTicket, pay(NewSessionTicket),
        [CcsBy(Server)] + ([ServerSays(Finished)] + tail));
    AddCcsMoves(p, script, Server, e, inbox, a, [ServerSays(Finished)] + tail);
    AddFinishedMoves(p, script, Server, e, inbox, b, tail);
    MovedIgnoresState(p, script, Server, e, inbox, Outcome(AddFinished(b, true), false), next, Flushing);
  }

  /** Every step of a server that is in step with the script. */
  lemma {:induction false} ServerKeepsStep(p: Params, script: seq<Want>, e: End<ServerState>, inbox: seq<Item>,
      v: Verdict, pay: MsgType -> seq<byte>)
    requires WFParams(p) && !e.wait.Failed? && AtS(p, script, e)
    requires HeadOk(script, e.n, Client, e.transcript, inbox, p.clientHasCert)
    ensures ServerStepOk(p, script, e, inbox, ServerStep(p, e, inbox, v, pay))
  {
    hide ServerDo, HeadOk;
    if e.wait == AwaitCcs {
      hide RestS, Moved;
      Advance(script, e.n, CcsBy(Client), RestS(p, e.state));
      OpenCcsMoves(p, script, Server, e, inbox);
    } else if e.wait == Flushing {
      hide Moved;
      StaysPut(p, script, Server, e, inbox, Outcome(e, false));
    } else {
      assert ServerStep(p, e, inbox, v, pay) == ServerDo(p, e, inbox, v, pay);
      hide RestS, LinesS, LeftS, ControlS, MaxAddedS, AtS, OrderS, Moved, ServerStepOk, ServerStep;
      match e.state
      case SStart => ServerBegins(p, script, e, inbox, v, pay);
      case SReadClientHello => ServerBegins(p, script, e, inbox, v, pay);
      case SSelectCertificate => ServerBegins(p, script, e, inbox, v, pay);
      case SSelectParameters => ServerSelects(p, script, e, inbox, v, pay);
      case SSendHello => ServerSendsHello(p, script, e, inbox, v, pay);
      case SSendCertificate => ServerSendsCertificate(p, script, e, inbox, v, pay);
      case SSendKeyExchange => ServerSendsKeyExchange(p, script, e, inbox, v, pay);
      case SSendHelloDone => ServerSendsHelloDone(p, script, e, inbox, v, pay);
      case SReadCertificate => ServerReadsCertificate(p, script, e, inbox, v, pay);
      case SVerifyCertificate => ServerReadsReply(p, script, e, inbox, v, pay);
      case SReadKeyExchange => ServerReadsReply(p, script, e, inbox, v, pay);
      case SReadVerify => ServerReadsReply(p, script, e, inbox, v, pay);
      case SReadCcs => ServerReadsLast(p, script, e, inbox, v, pay);
      case SProcessCcs => ServerReadsLast(p, script, e, inbox, v, pay);
      case SReadNextProto => ServerReadsLast(p, script, e, inbox, v, pay);
      case SReadChannelId => ServerReadsLast(p, script, e, inbox, v, pay);
      case SSendFinished => ServerSendsLast(p, script, e, inbox, v, pay);
      case _ => ServerReadsFinished(p, script, e, inbox, v, pay);
    }
  }
}
