/** The handshake cannot get stuck: while nobody has refused and the two sides are not both done,
    some flush or some step moves it on. */
module HandshakeProgress {
  import opened Wire
  import opened Handshake
  import opened HandshakeAgreement
  import opened HandshakeServing
  import opened HandshakeRuns

  ghost predicate NextIs(rest: seq<Want>, side: Side) {
    rest != [] && rest[0].side == side
  }

  lemma {:induction false} NextAfterOption(present: bool, w: Want, rest: seq<Want>)
    requires NextIs(rest, w.side)
    ensures NextIs(When(present, w) + rest, w.side)
  {
  }

  lemma {:induction false} NextIsFirst(w: Want, rest: seq<Want>)
    ensures NextIs([w] + rest, w.side)
  {
  }

  lemma {:induction false} ServerSpeaksHello(p: Params)
    ensures NextIs(RestC(p, CReadServerHello), Server) && NextIs(RestC(p, CReadHelloVerify), Server)
  {
    hide RestC, NextIs;
    var hello := RestC(p, if p.resume then CReadTicket else CReadCertificate);
    UnfoldC(p, CReadServerHello);
    assert RestC(p, CReadServerHello) == [ServerSays(ServerHello)] + hello;
    NextIsFirst(ServerSays(ServerHello), hello);
    UnfoldC(p, CReadHelloVerify);
    assert RestC(p, CReadHelloVerify) == RestC(p, CReadServerHello);
  }

  lemma {:induction false} ServerSpeaksFinished(p: Params)
    ensures NextIs(RestC(p, CReadFinished), Server) && RestC(p, CDone) == []
  {
    hide RestC, NextIs;
    var end := RestC(p, if p.resume then CSendFinished else CFinish);
    UnfoldC(p, CReadFinished);
    assert RestC(p, CReadFinished) == [ServerSays(Finished)] + end;
    NextIsFirst(ServerSays(Finished), end);
    UnfoldC(p, CDone);
    assert RestC(p, CDone) == [];
  }

  lemma {:induction false} ServerSpeaksTicket(p: Params)
    ensures NextIs(RestC(p, CReadTicket), Server)
  {
    TicketIsNext(p);
    hide RestC, NextIs, When;
    NextIsFirst(CcsBy(Server), RestC(p, CProcessCcs));
    NextAfterOption(p.ticket, ServerSays(NewSessionTicket), [CcsBy(Server)] + RestC(p, CProcessCcs));
  }

  lemma {:induction false} ServerSpeaksSecond(p: Params)
    requires WFParams(p)
    ensures NextIs(RestC(p, CReadHelloDone), Server) && NextIs(RestC(p, CReadRequest), Server)
    ensures NextIs(RestC(p, CReadKeyExchange), Server)
  {
    hide RestC, NextIs, When;
    AfterStatus(p);
    NextIsFirst(ServerSays(ServerHelloDone), RestC(p, CSendCertificate));
    NextAfterOption(p.certRequest, ServerSays(CertificateRequest), RestC(p, CReadHelloDone));
    NextAfterOption(SendsSke(p), ServerSays(ServerKeyExchange), RestC(p, CReadRequest));
  }

  lemma {:induction false} ServerSpeaksThird(p: Params)
    requires WFParams(p)
    ensures NextIs(RestC(p, CReadStatus), Server) && NextIs(RestC(p, CReadCertificate), Server)
  {
    hide RestC, NextIs, When;
    AfterStatus(p);
    ServerSpeaksSecond(p);
    NextAfterOption(p.sendsStatus, ServerSays(CertificateStatus), RestC(p, CVerifyCertificate));
    UnfoldC(p, CReadCertificate);
    assert RestC(p, CReadCertificate) == When(p.certAuth, ServerSays(Certificate)) + RestC(p, CReadStatus);
    NextAfterOption(p.certAuth, ServerSays(Certificate), RestC(p, CReadStatus));
  }

  /** The states in which a client waits for a message. */
  predicate Reads(st: ClientState) {
    match st
    case CReadHelloVerify => true
    case CReadServerHello => true
    case CReadCertificate => true
    case CReadStatus => true
    case CReadKeyExchange => true
    case CReadRequest => true
    case CReadHelloDone => true
    case CReadTicket => true
    case CReadFinished => true
    case _ => false
  }

  lemma {:induction false} BlockedClientReads(p: Params, e: End<ClientState>, inbox: seq<Item>,
      pay: MsgType -> seq<byte>)
    requires e.wait == Ready && ClientDo(p, e, inbox, Proceed, pay) == Outcome(e, false)
    ensures e.state == CDone || (Reads(e.state) && inbox == [])
  {
    hide Add, AddIf, AddFinished, Take;
  }

  /** A client whose step changes nothing is done, or waits for the server to speak. */
  lemma {:induction false} BlockedClientWaits(p: Params, script: seq<Want>, e: End<ClientState>, inbox: seq<Item>,
      pay: MsgType -> seq<byte>)
    requires WFParams(p) && AtC(p, script, e) && (e.wait == Ready || e.wait == AwaitCcs)
    requires ClientStep(p, e, inbox, Proceed, pay) == Outcome(e, false)
    ensures e.flight == []
    ensures if e.state == CDone then script[e.n..] == [] else inbox == [] && NextIs(script[e.n..], Server)
  {
    ServerSpeaksHello(p);
    ServerSpeaksFinished(p);
    ServerSpeaksTicket(p);
    ServerSpeaksSecond(p);
    ServerSpeaksThird(p);
    hide RestC, LinesC, Order, ClientDo, Take, NextIs;
    if e.wait == AwaitCcs {
      NextIsFirst(CcsBy(Server), RestC(p, e.state));
    } else {
      BlockedClientReads(p, e, inbox, pay);
    }
  }

  lemma {:induction false} ClientSpeaksFirst(p: Params)
    ensures NextIs(RestS(p, SReadClientHello), Client) && NextIs(RestS(p, SSelectCertificate), Client)
    ensures NextIs(RestS(p, SSelectParameters), Client) && RestS(p, SDone) == []
  {
    hide RestS, NextIs;
    UnfoldS(p, SReadClientHello);
    UnfoldS(p, SSelectCertificate);
    UnfoldS(p, SDone);
    assert RestS(p, SReadClientHello) == RestS(p, SSelectCertificate) == RestS(p, SSelectParameters)
        && RestS(p, SDone) == [];
    UnfoldS(p, SSelectParameters);
    assert RestS(p, SSelectParameters) == [ClientSays(ClientHello)] + RestS(p, SSendHello);
    NextIsFirst(ClientSays(ClientHello), RestS(p, SSendHello));
  }

  lemma {:induction false} ClientSpeaksLast(p: Params)
    ensures NextIs(RestS(p, SReadNextProto), Client) && NextIs(RestS(p, SReadChannelId), Client)
    ensures NextIs(RestS(p, SReadFinished), Client)
  {
    hide RestS, NextIs, When;
    var end := RestS(p, if p.resume then SFinish else SSendFinished);
    UnfoldS(p, SReadFinished);
    assert RestS(p, SReadFinished) == [ClientSays(Finished)] + end;
    NextIsFirst(ClientSays(Finished), end);
    UnfoldS(p, SReadChannelId);
    assert RestS(p, SReadChannelId) == When(p.channelId, ClientSays(ChannelId)) + RestS(p, SReadFinished);
    NextAfterOption(p.channelId, ClientSays(ChannelId), RestS(p, SReadFinished));
    UnfoldS(p, SReadNextProto);
    assert RestS(p, SReadNextProto) == When(p.nextProto, ClientSays(NextProto)) + RestS(p, SReadChannelId);
    NextAfterOption(p.nextProto, ClientSays(NextProto), RestS(p, SReadChannelId));
  }

  lemma {:induction false} ClientSpeaksSecond(p: Params)
    ensures NextIs(RestS(p, SReadKeyExchange), Client) && NextIs(RestS(p, SReadCertificate), Client)
    ensures NextIs(RestS(p, SReadVerify), Client)
  {
    hide RestS, NextIs, When;
    UnfoldS(p, SReadCcs);
    assert RestS(p, SReadCcs) == [CcsBy(Client)] + RestS(p, SProcessCcs);
    NextIsFirst(CcsBy(Client), RestS(p, SProcessCcs));
    UnfoldS(p, SReadVerify);
    assert RestS(p, SReadVerify) == When(p.certRequest && p.clientHasCert, ClientSays(CertificateVerify))
        + RestS(p, SReadCcs);
    NextAfterOption(p.certRequest && p.clientHasCert, ClientSays(CertificateVerify), RestS(p, SReadCcs));
    UnfoldS(p, SReadKeyExchange);
    assert RestS(p, SReadKeyExchange) == [ClientSays(ClientKeyExchange)] + RestS(p, SReadVerify);
    NextIsFirst(ClientSays(ClientKeyExchange), RestS(p, SReadVerify));
    UnfoldS(p, SReadCertificate);
    assert RestS(p, SReadCertificate) == When(p.certRequest, ClientSays(Certificate)) + RestS(p, SVerifyCertificate);
    UnfoldS(p, SVerifyCertificate);
    assert RestS(p, SVerifyCertificate) == RestS(p, SReadKeyExchange);
    NextAfterOption(p.certRequest, ClientSays(Certificate), RestS(p, SReadKeyExchange));
  }

  /** A server whose step changes nothing is done, or waits for the client to speak. */
  lemma {:induction false} BlockedServerWaits(p: Params, script: seq<Want>, e: End<ServerState>, inbox: seq<Item>,
      pay: MsgType -> seq<byte>)
    requires WFParams(p) && AtS(p, script, e) && (e.wait == Ready || e.wait == AwaitCcs)
    requires ServerStep(p, e, inbox, Proceed, pay) == Outcome(e, false)
    ensures e.flight == []
    ensures if e.state == SDone then script[e.n..] == [] else inbox == [] && NextIs(script[e.n..], Client)
  {
    ClientSpeaksFirst(p);
    ClientSpeaksSecond(p);
    ClientSpeaksLast(p);
    hide RestS, LinesS, Add, AddIf, AddFinished, Take, NextIs, SendsSke;
    if e.wait == AwaitCcs {
      NextIsFirst(CcsBy(Client), RestS(p, e.state));
    }
  }

  ghost predicate Quiet(p: Params, s: Net, pay: MsgType -> seq<byte>) {
    && ClientStep(p, s.client, s.toClient, Proceed, pay) == Outcome(s.client, false)
    && ServerStep(p, s.server, s.toServer, Proceed, pay) == Outcome(s.server, false)
    && s.client.wait != Flushing && s.server.wait != Flushing
  }

  lemma {:induction false} InsideScript(p: Params, script: seq<Want>, c: End<ClientState>, s: End<ServerState>)
    requires AtC(p, script, c) && AtS(p, script, s)
    ensures c.n <= |script| && s.n <= |script|
  {
    hide RestC, RestS;
  }

  lemma {:induction false} QuietIsDone(p: Params, s: Net, pay: MsgType -> seq<byte>)
    requires WFParams(p) && NetOk(p, s) && !s.client.wait.Failed? && !s.server.wait.Failed? && Quiet(p, s, pay)
    ensures s.client.state == CDone && s.server.state == SDone
  {
    hide AtC, AtS, ClientStep, ServerStep, RestC, RestS, Linked;
    var script := RestC(p, CStart);
    BlockedClientWaits(p, script, s.client, s.toClient, pay);
    BlockedServerWaits(p, script, s.server, s.toServer, pay);
    InsideScript(p, script, s.client, s.server);
    UnderWay(p, script, s.produced, TipOf(s.client), TipOf(s.server), s.toClient, s.toServer);
  }

  /** As long as no callback has refused, a connection in which neither side can take a step and no
      flight is being written is one in which both sides are done. */
  lemma {:induction false} NoDeadlock(p: Params, events: seq<Event>, pay: MsgType -> seq<byte>)
    requires WFParams(p)
    requires var s := Run(p, Initial(), events);
             !s.client.wait.Failed? && !s.server.wait.Failed? && Quiet(p, s, pay)
    ensures var s := Run(p, Initial(), events); s.client.state == CDone && s.server.state == SDone
  {
    hide Run, NetOk, Quiet;
    InitialOk(p);
    RunKeepsOk(p, Initial(), events);
    QuietIsDone(p, Run(p, Initial(), events), pay);
  }

  /** What one side has sent and the other has not heard is in the channel or in the flight. */
  lemma {:induction false} UnderWay(p: Params, script: seq<Want>, produced: seq<Entry>, c: Tip, s: Tip,
      toClient: seq<Item>, toServer: seq<Item>)
    requires Linked(p, script, produced, Client, c, s, toClient, toServer)
    ensures c.n < s.n ==> toClient + s.flight != []
    ensures s.n < c.n ==> toServer + c.flight != []
  {
    hide LogOk, Heard;
    assert c.n < s.n ==> |Items(produced[c.n..])| > 0;
    assert s.n < c.n ==> |Items(produced[s.n..])| > 0;
  }
}
