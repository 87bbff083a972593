/** A handshake that nobody has refused can always be completed: a measure decreases with every
    step, and a connection in which nothing moves any more is one in which both sides are done. */
module HandshakeCompletion {
  import opened Wire
  import opened Handshake
  import opened HandshakeAgreement
  import opened HandshakeServing
  import opened HandshakeRuns
  import opened HandshakeProgress

  function WaitRank(w: Wait): nat {
    if w == Flushing || w == AwaitCcs then 1 else 0
  }

  function ClientRank(p: Params, e: End<ClientState>): nat {
    2 * Order(p, e.state) + WaitRank(e.wait)
  }

  function ServerRank(p: Params, e: End<ServerState>): nat {
    2 * OrderS(p, e.state) + WaitRank(e.wait)
  }

  function Rank(p: Params, s: Net): nat {
    ClientRank(p, s.client) + ServerRank(p, s.server)
  }

  /** A step that changes nothing, fails on what was received, or goes down. */
  ghost predicate GoesDown<S>(e: End<S>, o: Outcome<S>, before: nat, after: nat) {
    o == Outcome(e, false) || (if o.end.wait.Failed? then o.end.wait != Failed(Refused) else after < before)
  }

  lemma {:induction false} ExpectGoesDown<S(!new)>(e: End<S>, inbox: seq<Item>)
    requires e.wait == Ready
    ensures forall kind, next :: var o := Expect(e, inbox, kind, Proceed, next);
              || o == Outcome(e, false)
              || (if o.end.wait.Failed? then o.end.wait == Failed(Unexpected)
                  else o.took && o.end.state == next && o.end.wait == Ready)
    ensures forall fromServer, next :: var o := ExpectFinished(e, inbox, fromServer, next);
              || o == Outcome(e, false)
              || (if o.end.wait.Failed? then o.end.wait != Failed(Refused)
                  else o.took && o.end.state == next && o.end.wait == Ready)
  {
    hide Hashed;
  }

  /** Adding leaves state and wait alone. */
  lemma {:induction false} AddsInPlace<S(!new)>()
    ensures forall e: End<S>, item {:trigger Add(e, item)} ::
              Add(e, item).state == e.state && Add(e, item).wait == e.wait
    ensures forall e: End<S>, present, kind, bytes {:trigger AddIf(e, present, kind, bytes)} ::
              AddIf(e, present, kind, bytes).state == e.state && AddIf(e, present, kind, bytes).wait == e.wait
    ensures forall e: End<S>, fromServer {:trigger AddFinished(e, fromServer)} ::
              AddFinished(e, fromServer).state == e.state && AddFinished(e, fromServer).wait == e.wait
  {
    hide Hashed;
  }

  lemma {:induction false} ClientReadingGoesDown(p: Params, e: End<ClientState>, inbox: seq<Item>,
      pay: MsgType -> seq<byte>)
    requires e.wait == Ready
    requires e.state.CReadServerHello? || e.state.CReadCertificate? || e.state.CReadStatus? || e.state.CReadKeyExchange?
    ensures var o := ClientDo(p, e, inbox, Proceed, pay);
            GoesDown(e, o, ClientRank(p, e), ClientRank(p, o.end))
  {
    ExpectGoesDown(e, inbox);
    hide Add, AddIf, AddFinished, Expect, ExpectFinished, Take, SendsSke;
  }

  lemma {:induction false} ClientEndingGoesDown(p: Params, e: End<ClientState>, inbox: seq<Item>,
      pay: MsgType -> seq<byte>)
    requires e.wait == Ready
    requires e.state.CReadRequest? || e.state.CReadHelloDone? || e.state.CReadTicket? || e.state.CReadFinished?
    ensures var o := ClientDo(p, e, inbox, Proceed, pay);
            GoesDown(e, o, ClientRank(p, e), ClientRank(p, o.end))
  {
    ExpectGoesDown(e, inbox);
    hide Add, AddIf, AddFinished, Expect, ExpectFinished, Take, SendsSke;
  }

  predicate ClientSending(st: ClientState) {
    st.CStart? || st.CSendCertificate? || st.CSendKeyExchange? || st.CSendVerify? || st.CSendFinished?
  }

  lemma {:induction false} ClientSendingGoesDown(p: Params, e: End<ClientState>, inbox: seq<Item>,
      pay: MsgType -> seq<byte>)
    requires e.wait == Ready && ClientSending(e.state)
    ensures var f := ClientDo(p, e, inbox, Proceed, pay).end;
            (f.wait == Ready || f.wait == Flushing) && Order(p, f.state) < Order(p, e.state)
  {
    AddsInPlace<ClientState>();
    hide Add, AddIf, AddFinished, Expect, ExpectFinished, Take;
    match e.state
    case CStart =>
    case CSendCertificate =>
    case CSendKeyExchange =>
    case CSendVerify =>
    case _ =>
  }

  lemma {:induction false} ClientPassingGoesDown(p: Params, e: End<ClientState>, inbox: seq<Item>,
      pay: MsgType -> seq<byte>)
    requires e.wait == Ready
    requires e.state.CEarlyData? || e.state.CReadHelloVerify? || e.state.CVerifyCertificate? || e.state.CFinishFlight?
      || e.state.CProcessCcs? || e.state.CFinish? || e.state.CDone?
    ensures var o := ClientDo(p, e, inbox, Proceed, pay);
            GoesDown(e, o, ClientRank(p, e), ClientRank(p, o.end))
  {
    hide Add, AddIf, AddFinished, Expect, ExpectFinished, SendsSke, Hashed;
  }

  lemma {:induction false} ClientSentGoesDown(p: Params, e: End<ClientState>, inbox: seq<Item>,
      pay: MsgType -> seq<byte>)
    requires e.wait == Ready && ClientSending(e.state)
    ensures var o := ClientDo(p, e, inbox, Proceed, pay);
            GoesDown(e, o, ClientRank(p, e), ClientRank(p, o.end))
  {
    hide ClientDo, Order;
    ClientSendingGoesDown(p, e, inbox, pay);
  }

  lemma {:induction false} ClientDoGoesDown(p: Params, e: End<ClientState>, inbox: seq<Item>,
      pay: MsgType -> seq<byte>)
    requires e.wait == Ready
    ensures var o := ClientDo(p, e, inbox, Proceed, pay);
            GoesDown(e, o, ClientRank(p, e), ClientRank(p, o.end))
  {
    hide ClientDo, ClientRank, GoesDown;
    if ClientSending(e.state) {
      ClientSentGoesDown(p, e, inbox, pay);
    } else if e.state.CReadServerHello? || e.state.CReadCertificate? || e.state.CReadStatus?
        || e.state.CReadKeyExchange? {
      ClientReadingGoesDown(p, e, inbox, pay);
    } else if e.state.CReadRequest? || e.state.CReadHelloDone? || e.state.CReadTicket? || e.state.CReadFinished? {
      ClientEndingGoesDown(p, e, inbox, pay);
    } else {
      ClientPassingGoesDown(p, e, inbox, pay);
    }
  }

  predicate ServerSending(st: ServerState) {
    st.SSendHello? || st.SSendCertificate? || st.SSendKeyExchange? || st.SSendHelloDone? || st.SSendFinished?
  }

  lemma {:induction false} ServerHelloGoesDown(p: Params, e: End<ServerState>, inbox: seq<Item>,
      pay: MsgType -> seq<byte>)
    requires e.wait == Ready && (e.state.SSendHello? || e.state.SSendKeyExchange?)
    ensures var f := ServerDo(p, e, inbox, Proceed, pay).end;
            (f.wait == Ready || f.wait == Flushing) && OrderS(p, f.state) < OrderS(p, e.state)
  {
    AddsInPlace<ServerState>();
    hide Add, AddIf, AddFinished, Expect, ExpectFinished, Take, SendsSke;
  }

  lemma {:induction false} ServerChainGoesDown(p: Params, e: End<ServerState>, inbox: seq<Item>,
      pay: MsgType -> seq<byte>)
    requires e.wait == Ready && e.state.SSendCertificate?
    ensures var f := ServerDo(p, e, inbox, Proceed, pay).end;
            (f.wait == Ready || f.wait == Flushing) && OrderS(p, f.state) < OrderS(p, e.state)
  {
    AddsInPlace<ServerState>();
    hide Add, AddIf, AddFinished, Expect, ExpectFinished, Take, SendsSke;
  }

  lemma {:induction false} ServerHelloDoneGoesDown(p: Params, e: End<ServerState>, inbox: seq<Item>,
      pay: MsgType -> seq<byte>)
    requires e.wait == Ready && e.state.SSendHelloDone?
    ensures var f := ServerDo(p, e, inbox, Proceed, pay).end;
            (f.wait == Ready || f.wait == Flushing) && OrderS(p, f.state) < OrderS(p, e.state)
  {
    AddsInPlace<ServerState>();
    hide Add, AddIf, AddFinished, Expect, ExpectFinished, Take, SendsSke;
  }

  lemma {:induction false} ServerLastGoesDown(p: Params, e: End<ServerState>, inbox: seq<Item>,
      pay: MsgType -> seq<byte>)
    requires e.wait == Ready && e.state.SSendFinished?
    ensures var f := ServerDo(p, e, inbox, Proceed, pay).end;
            (f.wait == Ready || f.wait == Flushing) && OrderS(p, f.state) < OrderS(p, e.state)
  {
    AddsInPlace<ServerState>();
    hide Add, AddIf, AddFinished, Expect, ExpectFinished, Take, SendsSke;
  }

  lemma {:induction false} ServerSendingGoesDown(p: Params, e: End<ServerState>, inbox: seq<Item>,
      pay: MsgType -> seq<byte>)
    requires e.wait == Ready && ServerSending(e.state)
    ensures var f := ServerDo(p, e, inbox, Proceed, pay).end;
            (f.wait == Ready || f.wait == Flushing) && OrderS(p, f.state) < OrderS(p, e.state)
  {
    hide ServerDo, OrderS;
    if e.state.SSendCertificate? {
      ServerChainGoesDown(p, e, inbox, pay);
    } else if e.state.SSendHelloDone? {
      ServerHelloDoneGoesDown(p, e, inbox, pay);
    } else if e.state.SSendFinished? {
      ServerLastGoesDown(p, e, inbox, pay);
    } else {
      ServerHelloGoesDown(p, e, inbox, pay);
    }
  }

  lemma {:induction false} ServerReadingGoesDown(p: Params, e: End<ServerState>, inbox: seq<Item>,
      pay: MsgType -> seq<byte>)
    requires e.wait == Ready && (e.state.SReadCertificate? || e.state.SReadKeyExchange? || e.state.SReadVerify?)
    ensures var o := ServerDo(p, e, inbox, Proceed, pay);
            GoesDown(e, o, ServerRank(p, e), ServerRank(p, o.end))
  {
    ExpectGoesDown(e, inbox);
    hide Add, AddIf, AddFinished, Expect, ExpectFinished, Take, SendsSke;
  }

  lemma {:induction false} ServerEndingGoesDown(p: Params, e: End<ServerState>, inbox: seq<Item>,
      pay: MsgType -> seq<byte>)
    requires e.wait == Ready && (e.state.SReadNextProto? || e.state.SReadChannelId? || e.state.SReadFinished?)
    ensures var o := ServerDo(p, e, inbox, Proceed, pay);
            GoesDown(e, o, ServerRank(p, e), ServerRank(p, o.end))
  {
    ExpectGoesDown(e, inbox);
    hide Add, AddIf, AddFinished, Expect, ExpectFinished, Take, SendsSke;
  }

  lemma {:induction false} ServerPassingGoesDown(p: Params, e: End<ServerState>, inbox: seq<Item>,
      pay: MsgType -> seq<byte>)
    requires e.wait == Ready
    requires e.state.SStart? || e.state.SReadClientHello? || e.state.SSelectCertificate? || e.state.SSelectParameters?
      || e.state.SVerifyCertificate? || e.state.SReadCcs? || e.state.SProcessCcs? || e.state.SFinish? || e.state.SDone?
    ensures var o := ServerDo(p, e, inbox, Proceed, pay);
            GoesDown(e, o, ServerRank(p, e), ServerRank(p, o.end))
  {
    hide Add, AddIf, AddFinished, Expect, ExpectFinished, SendsSke, Hashed;
  }

  lemma {:induction false} ServerSentGoesDown(p: Params, e: End<ServerState>, inbox: seq<Item>,
      pay: MsgType -> seq<byte>)
    requires e.wait == Ready && ServerSending(e.state)
    ensures var o := ServerDo(p, e, inbox, Proceed, pay);
            GoesDown(e, o, ServerRank(p, e), ServerRank(p, o.end))
  {
    hide ServerDo, OrderS;
    ServerSendingGoesDown(p, e, inbox, pay);
  }

  lemma {:induction false} ServerDoGoesDown(p: Params, e: End<ServerState>, inbox: seq<Item>,
      pay: MsgType -> seq<byte>)
    requires e.wait == Ready
    ensures var o := ServerDo(p, e, inbox, Proceed, pay);
            GoesDown(e, o, ServerRank(p, e), ServerRank(p, o.end))
  {
    hide ServerDo, ServerRank, GoesDown;
    if ServerSending(e.state) {
      ServerSentGoesDown(p, e, inbox, pay);
    } else if e.state.SReadCertificate? || e.state.SReadKeyExchange? || e.state.SReadVerify? {
      ServerReadingGoesDown(p, e, inbox, pay);
    } else if e.state.SReadNextProto? || e.state.SReadChannelId? || e.state.SReadFinished? {
      ServerEndingGoesDown(p, e, inbox, pay);
    } else {
      ServerPassingGoesDown(p, e, inbox, pay);
    }
  }

  lemma {:induction false} ClientGoesDown(p: Params, e: End<ClientState>, inbox: seq<Item>, pay: MsgType -> seq<byte>)
    ensures var o := ClientStep(p, e, inbox, Proceed, pay);
            GoesDown(e, o, ClientRank(p, e), ClientRank(p, o.end))
  {
    hide ClientDo, Order;
    if e.wait == Ready {
      ClientDoGoesDown(p, e, inbox, pay);
    }
  }

  lemma {:induction false} ServerGoesDown(p: Params, e: End<ServerState>, inbox: seq<Item>, pay: MsgType -> seq<byte>)
    ensures var o := ServerStep(p, e, inbox, Proceed, pay);
            GoesDown(e, o, ServerRank(p, e), ServerRank(p, o.end))
  {
    hide ServerDo, OrderS;
    if e.wait == Ready {
      ServerDoGoesDown(p, e, inbox, pay);
    }
  }

  ghost predicate Unrefused(s: Net) {
    !s.client.wait.Failed? && !s.server.wait.Failed?
  }

  /** The next event of a cooperative schedule: write a flight out, or let a side move. */
  function Next(p: Params, s: Net, pay: MsgType -> seq<byte>): Event {
    if s.client.wait == Flushing then FlushClient(|s.client.flight|)
    else if s.server.wait == Flushing then FlushServer(|s.server.flight|)
    else if ClientStep(p, s.client, s.toClient, Proceed, pay) != Outcome(s.client, false) then RunClient(Proceed, pay)
    else RunServer(Proceed, pay)
  }

  /** Unless everything is quiet, that event takes the connection down one step. */
  lemma {:induction false} NextGoesDown(p: Params, s: Net, pay: MsgType -> seq<byte>)
    requires WFParams(p) && NetOk(p, s) && Unrefused(s) && !Quiet(p, s, pay)
    ensures var t := Step(p, s, Next(p, s, pay));
            NetOk(p, t) && Unrefused(t) && Rank(p, t) < Rank(p, s)
  {
    hide NetOk, ClientStep, ServerStep, Order, OrderS, By, Fresh;
    var t := Step(p, s, Next(p, s, pay));
    NetKeepsOk(p, s, Next(p, s, pay));
    OnlyRefusals(p, t);
    ClientGoesDown(p, s.client, s.toClient, pay);
    ServerGoesDown(p, s.server, s.toServer, pay);
  }

  lemma {:induction false} NetKeepsOk(p: Params, s: Net, e: Event)
    requires WFParams(p) && NetOk(p, s)
    ensures NetOk(p, Step(p, s, e))
  {
    hide NetOk, Step;
    RunKeepsOk(p, s, [e]);
    assert Run(p, s, [e]) == Run(p, Step(p, s, e), []);
  }

  lemma {:induction false} OnlyRefusals(p: Params, s: Net)
    requires NetOk(p, s)
    ensures s.client.wait.Failed? ==> s.client.wait == Failed(Refused)
    ensures s.server.wait.Failed? ==> s.server.wait == Failed(Refused)
  {
    hide Linked, AtC, AtS, RestC;
  }

  /** How a cooperative schedule goes on. */
  ghost function Rest(p: Params, s: Net, pay: MsgType -> seq<byte>): seq<Event>
    requires WFParams(p) && NetOk(p, s) && Unrefused(s)
    decreases Rank(p, s)
  {
    if Quiet(p, s, pay) then []
    else
      NextGoesDown(p, s, pay);
      [Next(p, s, pay)] + Rest(p, Step(p, s, Next(p, s, pay)), pay)
  }

  lemma {:induction false} RestFinishes(p: Params, s: Net, pay: MsgType -> seq<byte>)
    requires WFParams(p) && NetOk(p, s) && Unrefused(s)
    ensures var t := Run(p, s, Rest(p, s, pay));
            t.client.state == CDone && t.server.state == SDone
    ensures |Rest(p, s, pay)| <= Rank(p, s)
    decreases Rank(p, s)
  {
    hide NetOk, Quiet, Step, Next, Rank;
    if Quiet(p, s, pay) {
      QuietIsDone(p, s, pay);
    } else {
      NextGoesDown(p, s, pay);
      var e := Next(p, s, pay);
      RestFinishes(p, Step(p, s, e), pay);
      assert ([e] + Rest(p, Step(p, s, e), pay))[1..] == Rest(p, Step(p, s, e), pay);
    }
  }

  lemma {:induction false} RunOn(p: Params, s: Net, events: seq<Event>, more: seq<Event>)
    ensures Run(p, s, events + more) == Run(p, Run(p, s, events), more)
    decreases |events|
  {
    hide Step;
    if events == [] {
      assert events + more == more;
    } else {
      RunOn(p, Step(p, s, events[0]), events[1..], more);
      assert (events + more)[1..] == events[1..] + more;
    }
  }

  /** From every moment of every run in which nobody has refused, at most 122 more events, with
      every callback agreeing, complete the handshake on both sides. */
  lemma {:induction false} CanBeCompleted(p: Params, events: seq<Event>, pay: MsgType -> seq<byte>)
    requires WFParams(p) && Unrefused(Run(p, Initial(), events))
    ensures exists more :: |more| <= 122 && var s := Run(p, Initial(), events + more);
              s.client.state == CDone && s.server.state == SDone
  {
    hide Run, NetOk, Rest;
    InitialOk(p);
    RunKeepsOk(p, Initial(), events);
    var s := Run(p, Initial(), events);
    RestFinishes(p, s, pay);
    RunOn(p, Initial(), events, Rest(p, s, pay));
    assert Rank(p, s) <= 122;
  }
}
