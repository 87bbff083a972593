/** The two handshake machines never surprise each other: both follow one script, and each
    Finished is checked against the transcript it was computed from. */
module HandshakeAgreement {
  import opened Wire
  import opened Handshake

  /** One line of the script: who sends what. */
  datatype Want = Want(side: Side, ccs: bool, kind: MsgType)

  function ClientSays(kind: MsgType): Want {
    Want(Client, false, kind)
  }

  function ServerSays(kind: MsgType): Want {
    Want(Server, false, kind)
  }

  function CcsBy(side: Side): Want {
    Want(side, true, Finished)
  }

  function When(present: bool, w: Want): (r: seq<Want>)
    ensures |r| == if present then 1 else 0
  {
    if present then [w] else []
  }

  // ---- the script, from each state on ----

  function ClientLast(p: Params): seq<Want> {
    [CcsBy(Client)] + (When(p.nextProto, ClientSays(NextProto))
        + (When(p.channelId, ClientSays(ChannelId)) + [ClientSays(Finished)]))
  }

  function ServerLast(p: Params): seq<Want> {
    When(p.ticket, ServerSays(NewSessionTicket)) + ([CcsBy(Server)] + [ServerSays(Finished)])
  }

  function Order(p: Params, st: ClientState): nat {
    match st
    case CStart => 30
    case CEarlyData => 29
    case CReadHelloVerify => 28
    case CReadServerHello => 27
    case CReadCertificate => 26
    case CReadStatus => 25
    case CVerifyCertificate => 24
    case CReadKeyExchange => 23
    case CReadRequest => 22
    case CReadHelloDone => 21
    case CSendCertificate => 20
    case CSendKeyExchange => 19
    case CSendVerify => 18
    case CSendFinished => if p.resume then 5 else 17
    case CFinishFlight => if p.resume then 4 else 16
    case CReadTicket => 10
    case CProcessCcs => 9
    case CReadFinished => 8
    case CFinish => 1
    case CDone => 0
  }

  /** What is still to be sent and received by a client about to run this state. */
  function RestC(p: Params, st: ClientState): seq<Want>
    decreases Order(p, st), 1
  {
    LinesC(p, st)
  }

  function LinesC(p: Params, st: ClientState): seq<Want>
    decreases Order(p, st), 0
  {
    match st
    case CStart => [ClientSays(ClientHello)] + RestC(p, CReadServerHello)
    case CEarlyData => RestC(p, CReadServerHello)
    case CReadHelloVerify => RestC(p, CReadServerHello)
    case CReadServerHello => [ServerSays(ServerHello)] + RestC(p, if p.resume then CReadTicket else CReadCertificate)
    case CReadCertificate => When(p.certAuth, ServerSays(Certificate)) + RestC(p, CReadStatus)
    case CReadStatus => When(p.sendsStatus, ServerSays(CertificateStatus)) + RestC(p, CVerifyCertificate)
    case CVerifyCertificate => RestC(p, CReadKeyExchange)
    case CReadKeyExchange => When(SendsSke(p), ServerSays(ServerKeyExchange)) + RestC(p, CReadRequest)
    case CReadRequest => When(p.certRequest, ServerSays(CertificateRequest)) + RestC(p, CReadHelloDone)
    case CReadHelloDone => [ServerSays(ServerHelloDone)] + RestC(p, CSendCertificate)
    case CSendCertificate => When(p.certRequest, ClientSays(Certificate)) + RestC(p, CSendKeyExchange)
    case CSendKeyExchange => [ClientSays(ClientKeyExchange)] + RestC(p, CSendVerify)
    case CSendVerify => When(p.certRequest && p.clientHasCert, ClientSays(CertificateVerify)) + RestC(p, CSendFinished)
    case CSendFinished => ClientLast(p) + RestC(p, CFinishFlight)
    case CFinishFlight => if p.resume then [] else RestC(p, CReadTicket)
    case CReadTicket => ServerLast(p) + RestC(p, if p.resume then CSendFinished else CFinish)
    case CProcessCcs => [ServerSays(Finished)] + RestC(p, if p.resume then CSendFinished else CFinish)
    case CReadFinished => [ServerSays(Finished)] + RestC(p, if p.resume then CSendFinished else CFinish)
    case CFinish => []
    case CDone => []
  }

  lemma {:induction false} UnfoldC(p: Params, st: ClientState)
    ensures RestC(p, st) == LinesC(p, st)
  {
  }

  function OrderS(p: Params, st: ServerState): nat {
    match st
    case SStart => 30
    case SReadClientHello => 29
    case SSelectCertificate => 28
    case SSelectParameters => 27
    case SSendHello => 26
    case SSendCertificate => 25
    case SSendKeyExchange => 24
    case SSendHelloDone => 23
    case SReadCertificate => 22
    case SVerifyCertificate => 21
    case SReadKeyExchange => 20
    case SReadVerify => 19
    case SReadCcs => 15
    case SProcessCcs => 14
    case SReadNextProto => 13
    case SReadChannelId => 12
    case SReadFinished => 11
    case SSendFinished => if p.resume then 17 else 5
    case SFinish => 1
    case SDone => 0
  }

  /** The same for a server. */
  function RestS(p: Params, st: ServerState): seq<Want>
    decreases OrderS(p, st), 1
  {
    LinesS(p, st)
  }

  function LinesS(p: Params, st: ServerState): seq<Want>
    decreases OrderS(p, st), 0
  {
    match st
    case SStart => RestS(p, SSelectParameters)
    case SReadClientHello => RestS(p, SSelectParameters)
    case SSelectCertificate => RestS(p, SSelectParameters)
    case SSelectParameters => [ClientSays(ClientHello)] + RestS(p, SSendHello)
    case SSendHello => [ServerSays(ServerHello)] + RestS(p, if p.resume then SSendFinished else SSendCertificate)
    case SSendCertificate =>
      When(p.certAuth, ServerSays(Certificate)) + (When(p.sendsStatus, ServerSays(CertificateStatus))
          + RestS(p, SSendKeyExchange))
    case SSendKeyExchange => When(SendsSke(p), ServerSays(ServerKeyExchange)) + RestS(p, SSendHelloDone)
    case SSendHelloDone => When(p.certRequest, ServerSays(CertificateRequest))
        + ([ServerSays(ServerHelloDone)] + RestS(p, SReadCertificate))
    case SReadCertificate => When(p.certRequest, ClientSays(Certificate)) + RestS(p, SVerifyCertificate)
    case SVerifyCertificate => RestS(p, SReadKeyExchange)
    case SReadKeyExchange => [ClientSays(ClientKeyExchange)] + RestS(p, SReadVerify)
    case SReadVerify => When(p.certRequest && p.clientHasCert, ClientSays(CertificateVerify)) + RestS(p, SReadCcs)
    case SReadCcs => [CcsBy(Client)] + RestS(p, SProcessCcs)
    case SProcessCcs => RestS(p, SReadNextProto)
    case SReadNextProto => When(p.nextProto, ClientSays(NextProto)) + RestS(p, SReadChannelId)
    case SReadChannelId => When(p.channelId, ClientSays(ChannelId)) + RestS(p, SReadFinished)
    case SReadFinished => [ClientSays(Finished)] + RestS(p, if p.resume then SFinish else SSendFinished)
    case SSendFinished => ServerLast(p) + RestS(p, if p.resume then SReadCcs else SFinish)
    case SFinish => []
    case SDone => []
  }

  lemma {:induction false} UnfoldS(p: Params, st: ServerState)
    ensures RestS(p, st) == LinesS(p, st)
  {
  }

  function LeftC(p: Params, e: End<ClientState>): seq<Want> {
    if e.wait == AwaitCcs then [CcsBy(Server)] + RestC(p, e.state) else RestC(p, e.state)
  }

  function LeftS(p: Params, e: End<ServerState>): seq<Want> {
    if e.wait == AwaitCcs then [CcsBy(Client)] + RestS(p, e.state) else RestS(p, e.state)
  }

  /** Both machines were written for the same script. */
  lemma {:induction false} ScriptsAgree(p: Params)
    requires WFParams(p)
    ensures RestC(p, CStart) == RestS(p, SStart)
  {
    TailsAgree(p);
    assert RestC(p, CStart) == [ClientSays(ClientHello)] + RestC(p, CReadServerHello);
    assert RestS(p, SStart) == RestS(p, SSelectParameters) == [ClientSays(ClientHello)] + RestS(p, SSendHello);
    assert RestC(p, CReadServerHello) == [ServerSays(ServerHello)]
        + RestC(p, if p.resume then CReadTicket else CReadCertificate);
    assert RestS(p, SSendHello) == [ServerSays(ServerHello)]
        + RestS(p, if p.resume then SSendFinished else SSendCertificate);
    if !p.resume {
      FullHandshakeAgrees(p);
    }
  }

  /** The server's reading of the client's last flight. */
  lemma {:induction false} ReadsClientLast(p: Params)
    ensures RestS(p, SReadCcs) == ClientLast(p) + RestS(p, if p.resume then SFinish else SSendFinished)
  {
    var tail := RestS(p, if p.resume then SFinish else SSendFinished);
    assert RestS(p, SReadFinished) == [ClientSays(Finished)] + tail;
    assert RestS(p, SReadChannelId) == When(p.channelId, ClientSays(ChannelId)) + RestS(p, SReadFinished);
    assert RestS(p, SReadNextProto) == When(p.nextProto, ClientSays(NextProto)) + RestS(p, SReadChannelId);
    assert RestS(p, SReadCcs) == [CcsBy(Client)] + RestS(p, SProcessCcs) == [CcsBy(Client)] + RestS(p, SReadNextProto);
    hide RestS;
    Regroup3(When(p.nextProto, ClientSays(NextProto)), When(p.channelId, ClientSays(ChannelId)),
        [ClientSays(Finished)], tail, [CcsBy(Client)]);
  }

  lemma {:induction false} Regroup3(a: seq<Want>, b: seq<Want>, c: seq<Want>, tail: seq<Want>, first: seq<Want>)
    ensures first + (a + (b + (c + tail))) == (first + (a + (b + c))) + tail
  {
  }

  lemma {:induction false} TailsAgree(p: Params)
    ensures RestC(p, CSendFinished) == RestS(p, SReadCcs)
    ensures RestC(p, CReadTicket) == RestS(p, SSendFinished)
  {
    ReadsClientLast(p);
    hide RestC, RestS, ClientLast, ServerLast;
    UnfoldC(p, CSendFinished);
    assert RestC(p, CSendFinished) == ClientLast(p) + RestC(p, CFinishFlight);
    UnfoldC(p, CReadTicket);
    assert RestC(p, CReadTicket) == ServerLast(p) + RestC(p, if p.resume then CSendFinished else CFinish);
    UnfoldS(p, SSendFinished);
    assert RestS(p, SSendFinished) == ServerLast(p) + RestS(p, if p.resume then SReadCcs else SFinish);
    UnfoldC(p, CFinish);
    UnfoldS(p, SFinish);
    assert RestC(p, CFinish) == [] && RestS(p, SFinish) == [];
    UnfoldC(p, CFinishFlight);
    assert RestC(p, CFinishFlight) == if p.resume then [] else RestC(p, CReadTicket);
  }

  lemma {:induction false} FullHandshakeAgrees(p: Params)
    requires WFParams(p) && !p.resume
    ensures RestC(p, CReadCertificate) == RestS(p, SSendCertificate)
  {
    ClientReplyAgrees(p);
    UnfoldC(p, CReadHelloDone);
    UnfoldC(p, CVerifyCertificate);
    UnfoldS(p, SSendCertificate);
    hide RestC, RestS, When, ServerSays, ClientSays, SendsSke;
    var c, s := RestC(p, CReadHelloDone), RestS(p, SReadCertificate);
    assert c == [ServerSays(ServerHelloDone)] + s;
    UnfoldC(p, CReadRequest);
    assert RestC(p, CReadRequest) == RestS(p, SSendHelloDone) by {
      assert RestC(p, CReadRequest) == When(p.certRequest, ServerSays(CertificateRequest)) + c;
      UnfoldS(p, SSendHelloDone);
      assert RestS(p, SSendHelloDone) == When(p.certRequest, ServerSays(CertificateRequest))
          + ([ServerSays(ServerHelloDone)] + s);
    }
    UnfoldC(p, CReadKeyExchange);
    assert RestC(p, CReadKeyExchange) == RestS(p, SSendKeyExchange) by {
      assert RestC(p, CReadKeyExchange) == When(SendsSke(p), ServerSays(ServerKeyExchange)) + RestC(p, CReadRequest);
      UnfoldS(p, SSendKeyExchange);
      assert RestS(p, SSendKeyExchange) == When(SendsSke(p), ServerSays(ServerKeyExchange)) + RestS(p, SSendHelloDone);
    }
    UnfoldC(p, CReadStatus);
    assert RestC(p, CReadStatus) == When(p.sendsStatus, ServerSays(CertificateStatus)) + RestC(p, CReadKeyExchange);
    UnfoldC(p, CReadCertificate);
    assert RestC(p, CReadCertificate) == When(p.certAuth, ServerSays(Certificate)) + RestC(p, CReadStatus);
    assert RestS(p, SSendCertificate)
        == When(p.certAuth, ServerSays(Certificate))
            + (When(p.sendsStatus, ServerSays(CertificateStatus)) + RestS(p, SSendKeyExchange));
  }

  lemma {:induction false} ClientReplyAgrees(p: Params)
    requires !p.resume
    ensures RestC(p, CSendCertificate) == RestS(p, SReadCertificate)
  {
    TailsAgree(p);
    VerifyAgrees(p);
    hide RestC, RestS, ClientLast, ServerLast;
    UnfoldC(p, CSendKeyExchange);
    assert RestC(p, CSendKeyExchange) == [ClientSays(ClientKeyExchange)] + RestC(p, CSendVerify);
    UnfoldS(p, SReadKeyExchange);
    assert RestS(p, SReadKeyExchange) == [ClientSays(ClientKeyExchange)] + RestS(p, SReadVerify);
    UnfoldC(p, CSendCertificate);
    assert RestC(p, CSendCertificate) == When(p.certRequest, ClientSays(Certificate)) + RestC(p, CSendKeyExchange);
    UnfoldS(p, SReadCertificate);
    assert RestS(p, SReadCertificate) == When(p.certRequest, ClientSays(Certificate)) + RestS(p, SVerifyCertificate);
    UnfoldS(p, SVerifyCertificate);
    assert RestS(p, SVerifyCertificate) == RestS(p, SReadKeyExchange);
  }

  lemma {:induction false} VerifyAgrees(p: Params)
    requires RestC(p, CSendFinished) == RestS(p, SReadCcs)
    ensures RestC(p, CSendVerify) == RestS(p, SReadVerify)
  {
    hide RestC, RestS;
    UnfoldC(p, CSendVerify);
    assert RestC(p, CSendVerify) == When(p.certRequest && p.clientHasCert, ClientSays(CertificateVerify))
        + RestC(p, CSendFinished);
    UnfoldS(p, SReadVerify);
    assert RestS(p, SReadVerify) == When(p.certRequest && p.clientHasCert, ClientSays(CertificateVerify))
        + RestS(p, SReadCcs);
  }

  // ---- items against the script ----

  predicate Fits(w: Want, side: Side, item: Item) {
    w.side == side && if item.ChangeCipherSpec? then w.ccs else !w.ccs && w.kind == item.kind
  }

  /** The messages among the first items. */
  function Said(entries: seq<Entry>): seq<Item> {
    if entries == [] then []
    else Hashed(Said(entries[..|entries| - 1]), entries[|entries| - 1].item)
  }

  /** Entry `i` is line `i` of the script; a Finished is the MAC of everything said before it. */
  ghost predicate EntryOk(script: seq<Want>, produced: seq<Entry>, i: nat, clientHasCert: bool)
    requires i < |produced|
  {
    var e := produced[i];
    && i < |script| && Fits(script[i], e.side, e.item)
    && (e.item.Message? && e.item.kind == Finished ==> e.item.body == Mac(e.side == Server, Said(produced[..i])))
    && (e.item.Message? && e.item.kind == Certificate && e.side == Client ==>
        e.item.body == Chain(if clientHasCert then 1 else 0))
  }

  ghost predicate LogOk(p: Params, script: seq<Want>, produced: seq<Entry>) {
    forall i :: 0 <= i < |produced| ==> EntryOk(script, produced, i, p.clientHasCert)
  }

  function HashedAll(transcript: seq<Item>, items: seq<Item>): seq<Item> {
    if items == [] then transcript else Hashed(HashedAll(transcript, items[..|items| - 1]), items[|items| - 1])
  }

  lemma {:induction false} SaidMore(entries: seq<Entry>, side: Side, items: seq<Item>)
    ensures Said(entries + By(side, items)) == HashedAll(Said(entries), items)
  {
    if items == [] {
      assert entries + By(side, items) == entries;
    } else {
      var before := items[..|items| - 1];
      SaidMore(entries, side, before);
      var all := entries + By(side, items);
      assert all[..|all| - 1] == entries + By(side, before);
    }
  }

  // ---- what one endpoint keeps ----

  /** What is known of a client that has not failed, apart from its place in the script. */
  ghost predicate ControlC(p: Params, e: End<ClientState>) {
    var k := Order(p, e.state);
    && (18 <= k <= 21 ==> e.certRequest == p.certRequest)
    && (22 <= k ==> !e.certRequest)
    && (18 <= k <= 26 ==> !p.resume)
    && (e.wait == Flushing ==> e.state == CEarlyData || e.state == CFinishFlight)
    && (e.wait == AwaitCcs ==> e.state == CProcessCcs)
    && |e.flight| <= e.added <= MaxAddedC(e)
  }

  /** How many items can be in a client's flight. */
  function MaxAddedC(e: End<ClientState>): nat {
    if e.wait == Flushing then 7
    else
      match e.state
      case CSendKeyExchange => 1
      case CSendVerify => 2
      case CSendFinished => 3
      case _ => 0
  }

  ghost predicate AtC(p: Params, script: seq<Want>, e: End<ClientState>) {
    e.n <= |script| && script[e.n..] == LeftC(p, e) && ControlC(p, e)
  }

  /** The items a step put into the flight continue the script. */
  ghost predicate Continues(script: seq<Want>, n: nat, side: Side, transcript: seq<Item>, items: seq<Item>,
      clientHasCert: bool) {
    forall i :: 0 <= i < |items| ==>
      && n + i < |script| && Fits(script[n + i], side, items[i])
      && (items[i].Message? && items[i].kind == Finished ==>
          items[i].body == Mac(side == Server, HashedAll(transcript, items[..i])))
      && (items[i].Message? && items[i].kind == Certificate && side == Client ==>
          items[i].body == Chain(if clientHasCert then 1 else 0))
  }

  /** What any step of either endpoint does: it takes the head of the inbox, or adds items, or
      neither; and it fails only by a refusal. */
  ghost predicate Moved<T>(p: Params, script: seq<Want>, side: Side, e: End<T>, inbox: seq<Item>, o: Outcome<T>) {
    var news := Fresh(e.flight, o.end.flight);
    && o.end.flight == e.flight + news && o.end.added == e.added + |news|
    && (o.took ==> inbox != [] && news == [] && o.end.n == e.n + 1)
    && (o.took ==> o.end.transcript == Hashed(e.transcript, inbox[0]))
    && (!o.took ==> o.end.n == e.n + |news| && o.end.transcript == HashedAll(e.transcript, news))
    && Continues(script, e.n, side, e.transcript, news, p.clientHasCert)
    && (o.end.wait.Failed? ==> o.end.wait == Failed(Refused) && news == [] && !o.took)
  }

  /** The head of an inbox is the next line of the script. */
  ghost predicate HeadOk(script: seq<Want>, n: nat, from: Side, transcript: seq<Item>, inbox: seq<Item>,
      clientHasCert: bool) {
    inbox != [] ==>
      && n < |script| && Fits(script[n], from, inbox[0])
      && (inbox[0].Message? && inbox[0].kind == Finished ==> inbox[0].body == Mac(from == Server, transcript))
      && (inbox[0].Message? && inbox[0].kind == Certificate && from == Client ==>
          inbox[0].body == Chain(if clientHasCert then 1 else 0))
  }

  // ---- the client, state by state ----

  lemma {:induction false} Advance(script: seq<Want>, n: nat, first: Want, rest: seq<Want>)
    requires n <= |script| && script[n..] == [first] + rest
    ensures n < |script| && script[n] == first && script[n + 1..] == rest
  {
    assert script[n..][0] == first;
    assert script[n + 1..] == script[n..][1..];
  }

  function Other(side: Side): Side {
    if side == Client then Server else Client
  }

  lemma {:induction false} ExpectMoves<T>(p: Params, script: seq<Want>, side: Side, e: End<T>, inbox: seq<Item>,
      kind: MsgType, v: Verdict, next: T)
    requires HeadOk(script, e.n, Other(side), e.transcript, inbox, p.clientHasCert) && e.wait == Ready
    requires e.n < |script| && script[e.n] == Want(Other(side), false, kind)
    ensures var o := Expect(e, inbox, kind, v, next);
            && Moved(p, script, side, e, inbox, o)
            && (o.took ==> o.end == Take(e, inbox[0]).(state := next))
            && (!o.took && !o.end.wait.Failed? ==> o.end == e)
  {
    assert Fresh(e.flight, e.flight) == [];
  }

  lemma {:induction false} FinishedMoves<T>(p: Params, script: seq<Want>, side: Side, e: End<T>, inbox: seq<Item>,
      next: T)
    requires HeadOk(script, e.n, Other(side), e.transcript, inbox, p.clientHasCert) && e.wait == Ready
    requires e.n < |script| && script[e.n] == Want(Other(side), false, Finished)
    ensures var o := ExpectFinished(e, inbox, side == Client, next);
            && Moved(p, script, side, e, inbox, o)
            && (o.took ==> o.end == Take(e, inbox[0]).(state := next))
            && (!o.took ==> o.end == e)
  {
    assert Fresh(e.flight, e.flight) == [];
  }

  lemma {:induction false} StaysPut<T>(p: Params, script: seq<Want>, side: Side, e: End<T>, inbox: seq<Item>,
      o: Outcome<T>)
    requires !o.took && o.end.flight == e.flight && o.end.n == e.n && o.end.added == e.added
        && o.end.transcript == e.transcript
    requires o.end.wait.Failed? ==> o.end.wait == Failed(Refused)
    ensures Moved(p, script, side, e, inbox, o)
  {
    assert Fresh(e.flight, e.flight) == [];
  }

  /** States that wait for one message. */
  lemma {:induction false} ClientExpects(p: Params, script: seq<Want>, e: End<ClientState>, inbox: seq<Item>,
      kind: MsgType, v: Verdict, next: ClientState)
    requires AtC(p, script, e) && e.wait == Ready
    requires HeadOk(script, e.n, Server, e.transcript, inbox, p.clientHasCert)
    requires RestC(p, e.state) == [ServerSays(kind)] + RestC(p, next) && ControlC(p, e.(state := next))
    ensures var o := Expect(e, inbox, kind, v, next);
            Moved(p, script, Client, e, inbox, o) && (!o.end.wait.Failed? ==> AtC(p, script, o.end))
  {
    hide RestC, Moved, Expect, HeadOk;
    Advance(script, e.n, ServerSays(kind), RestC(p, next));
    ExpectMoves(p, script, Client, e, inbox, kind, v, next);
  }

  lemma {:induction false} ClientReadsFinished(p: Params, script: seq<Want>, e: End<ClientState>, inbox: seq<Item>,
      v: Verdict, pay: MsgType -> seq<byte>)
    requires AtC(p, script, e) && e.wait == Ready && e.state == CReadFinished
    requires HeadOk(script, e.n, Server, e.transcript, inbox, p.clientHasCert)
    ensures var o := ClientDo(p, e, inbox, v, pay);
            Moved(p, script, Client, e, inbox, o) && (!o.end.wait.Failed? ==> AtC(p, script, o.end))
  {
    hide RestC, Moved, ExpectFinished, HeadOk;
    var next := if p.resume then CSendFinished else CFinish;
    UnfoldC(p, CReadFinished);
    assert RestC(p, CReadFinished) == [ServerSays(Finished)] + RestC(p, next);
    Advance(script, e.n, ServerSays(Finished), RestC(p, next));
    FinishedMoves(p, script, Client, e, inbox, next);
  }

  lemma {:induction false} ClientReadsTicket(p: Params, script: seq<Want>, e: End<ClientState>, inbox: seq<Item>,
      v: Verdict, pay: MsgType -> seq<byte>)
    requires AtC(p, script, e) && e.wait == Ready && e.state == CReadTicket
    requires HeadOk(script, e.n, Server, e.transcript, inbox, p.clientHasCert)
    ensures var o := ClientDo(p, e, inbox, v, pay);
            Moved(p, script, Client, e, inbox, o) && (!o.end.wait.Failed? ==> AtC(p, script, o.end))
  {
    hide RestC, Moved, Expect, HeadOk;
    TicketIsNext(p);
    if p.ticket {
      Advance(script, e.n, ServerSays(NewSessionTicket), [CcsBy(Server)] + RestC(p, CProcessCcs));
      ExpectMoves(p, script, Client, e, inbox, NewSessionTicket, v, CProcessCcs);
      var o := Expect(e, inbox, NewSessionTicket, v, CProcessCcs);
      if o.took {
        MovedIgnoresWait(p, script, Client, e, inbox, o);
      }
    } else {
      StaysPut(p, script, Client, e, inbox, ClientDo(p, e, inbox, v, pay));
    }
  }

  lemma {:induction false} MovedIgnoresWait<T>(p: Params, script: seq<Want>, side: Side, e: End<T>, inbox: seq<Item>,
      o: Outcome<T>)
    requires Moved(p, script, side, e, inbox, o) && o.took
    ensures Moved(p, script, side, e, inbox, o.(end := o.end.(wait := AwaitCcs)))
  {
  }

  lemma {:induction false} TicketIsNext(p: Params)
    ensures RestC(p, CReadTicket) == When(p.ticket, ServerSays(NewSessionTicket))
        + ([CcsBy(Server)] + RestC(p, CProcessCcs))
  {
    UnfoldC(p, CReadTicket);
    UnfoldC(p, CProcessCcs);
    hide RestC;
    var tail := RestC(p, if p.resume then CSendFinished else CFinish);
    Regroup(When(p.ticket, ServerSays(NewSessionTicket)), [CcsBy(Server)], [ServerSays(Finished)], tail);
  }

  lemma {:induction false} Regroup<T>(a: seq<T>, b: seq<T>, c: seq<T>, d: seq<T>)
    ensures a + (b + c) + d == a + (b + (c + d))
  {
    assert b + c + d == b + (c + d);
    assert a + (b + c) + d == a + (b + c + d);
  }

  lemma {:induction false} MovedIgnoresState<T>(p: Params, script: seq<Want>, side: Side, e: End<T>, inbox: seq<Item>,
      o: Outcome<T>, next: T, wait: Wait)
    requires Moved(p, script, side, e, inbox, o) && !o.end.wait.Failed? && !wait.Failed?
    ensures Moved(p, script, side, e, inbox, o.(end := o.end.(state := next, wait := wait)))
  {
  }

  /** One more item in the flight. */
  lemma {:induction false} ContinuesMore(script: seq<Want>, n: nat, side: Side, transcript: seq<Item>,
      items: seq<Item>, item: Item, clientHasCert: bool)
    requires Continues(script, n, side, transcript, items, clientHasCert)
    requires n + |items| < |script| && Fits(script[n + |items|], side, item)
    requires item.Message? && item.kind == Finished ==> item.body == Mac(side == Server, HashedAll(transcript, items))
    requires item.Message? && item.kind == Certificate && side == Client ==>
        item.body == Chain(if clientHasCert then 1 else 0)
    ensures Continues(script, n, side, transcript, items + [item], clientHasCert)
  {
    hide Fits, HashedAll;
    var more := items + [item];
    forall i | 0 <= i < |more|
      ensures more[..i] == (if i < |items| then items[..i] else items)
    {
    }
  }

  lemma {:induction false} HashedAllMore(transcript: seq<Item>, items: seq<Item>, item: Item)
    ensures HashedAll(transcript, items + [item]) == Hashed(HashedAll(transcript, items), item)
  {
    assert (items + [item])[..|items|] == items;
  }

  lemma {:induction false} AddMoves<T>(p: Params, script: seq<Want>, side: Side, e: End<T>, inbox: seq<Item>,
      f: End<T>, item: Item)
    requires Moved(p, script, side, e, inbox, Outcome(f, false)) && !f.wait.Failed?
    requires f.n < |script| && Fits(script[f.n], side, item)
    requires item.Message? && item.kind == Finished ==> item.body == Mac(side == Server, f.transcript)
    requires item.Message? && item.kind == Certificate && side == Client ==>
        item.body == Chain(if p.clientHasCert then 1 else 0)
    ensures Moved(p, script, side, e, inbox, Outcome(Add(f, item), false))
  {
    hide Fits, HashedAll, Continues;
    var news := Fresh(e.flight, f.flight);
    assert Add(f, item).flight == e.flight + (news + [item]);
    assert Fresh(e.flight, Add(f, item).flight) == news + [item];
    HashedAllMore(e.transcript, news, item);
    ContinuesMore(script, e.n, side, e.transcript, news, item, p.clientHasCert);
  }

  /** At most one more item in the flight, and nothing else but the history has changed. */
  ghost predicate OneMore<T>(f: End<T>, g: End<T>) {
    && |g.flight| - |f.flight| == g.added - f.added
    && f.added <= g.added <= f.added + 1
    && g.wait == f.wait && g.certRequest == f.certRequest && g.peerCert == f.peerCert
  }

  /** An optional message. */
  lemma {:induction false} AddIfMoves<T>(p: Params, script: seq<Want>, side: Side, e: End<T>, inbox: seq<Item>,
      f: End<T>, present: bool, kind: MsgType, bytes: seq<byte>, rest: seq<Want>)
    requires Moved(p, script, side, e, inbox, Outcome(f, false)) && !f.wait.Failed?
    requires f.n <= |script| && script[f.n..] == When(present, Want(side, false, kind)) + rest
    requires kind != Finished && (kind == Certificate ==> side == Server)
    ensures var g := AddIf(f, present, kind, bytes);
            && Moved(p, script, side, e, inbox, Outcome(g, false))
            && g.n <= |script| && script[g.n..] == rest && OneMore(f, g)
  {
    hide Moved;
    if present {
      Advance(script, f.n, Want(side, false, kind), rest);
      AddMoves(p, script, side, e, inbox, f, Message(kind, Opaque(bytes)));
    }
  }

  lemma {:induction false} AddFinishedMoves<T>(p: Params, script: seq<Want>, side: Side, e: End<T>, inbox: seq<Item>,
      f: End<T>, rest: seq<Want>)
    requires Moved(p, script, side, e, inbox, Outcome(f, false)) && !f.wait.Failed?
    requires f.n <= |script| && script[f.n..] == [Want(side, false, Finished)] + rest
    ensures var g := AddFinished(f, side == Server);
            && Moved(p, script, side, e, inbox, Outcome(g, false))
            && g.n <= |script| && script[g.n..] == rest && OneMore(f, g)
  {
    hide Moved;
    Advance(script, f.n, Want(side, false, Finished), rest);
    AddMoves(p, script, side, e, inbox, f, Message(Finished, Mac(side == Server, f.transcript)));
  }

  lemma {:induction false} AddCcsMoves<T>(p: Params, script: seq<Want>, side: Side, e: End<T>, inbox: seq<Item>,
      f: End<T>, rest: seq<Want>)
    requires Moved(p, script, side, e, inbox, Outcome(f, false)) && !f.wait.Failed?
    requires f.n <= |script| && script[f.n..] == [CcsBy(side)] + rest
    ensures var g := Add(f, ChangeCipherSpec);
            && Moved(p, script, side, e, inbox, Outcome(g, false))
            && g.n <= |script| && script[g.n..] == rest && OneMore(f, g)
  {
    hide Moved;
    Advance(script, f.n, CcsBy(side), rest);
    AddMoves(p, script, side, e, inbox, f, ChangeCipherSpec);
  }

  // ---- silent and sending states of the client ----

  lemma {:induction false} ClientPasses(p: Params, script: seq<Want>, e: End<ClientState>, inbox: seq<Item>,
      next: ClientState)
    requires AtC(p, script, e) && e.wait == Ready && RestC(p, e.state) == RestC(p, next)
        && ControlC(p, e.(state := next))
    ensures Moved(p, script, Client, e, inbox, Outcome(e.(state := next), false)) && AtC(p, script, e.(state := next))
  {
    hide RestC, Moved;
    StaysPut(p, script, Client, e, inbox, Outcome(e.(state := next), false));
  }

  lemma {:induction false} ClientSends(p: Params, script: seq<Want>, e: End<ClientState>, inbox: seq<Item>,
      item: Item, next: ClientState, wait: Wait)
    requires AtC(p, script, e) && e.wait == Ready && (wait == Ready || wait == Flushing)
    requires item.Message? && item.kind != Finished && RestC(p, e.state) == [ClientSays(item.kind)] + RestC(p, next)
    requires item.kind == Certificate ==> item.body == Chain(if p.clientHasCert then 1 else 0)
    requires ControlC(p, Add(e, item).(state := next, wait := wait))
    ensures var f := Add(e, item).(state := next, wait := wait);
            Moved(p, script, Client, e, inbox, Outcome(f, false)) && AtC(p, script, f)
  {
    hide RestC, Moved;
    Advance(script, e.n, ClientSays(item.kind), RestC(p, next));
    StaysPut(p, script, Client, e, inbox, Outcome(e, false));
    AddMoves(p, script, Client, e, inbox, e, item);
    MovedIgnoresState(p, script, Client, e, inbox, Outcome(Add(e, item), false), next, wait);
  }

  lemma {:induction false} ClientSendsLast(p: Params, script: seq<Want>, e: End<ClientState>, inbox: seq<Item>,
      pay: MsgType -> seq<byte>)
    requires AtC(p, script, e) && e.wait == Ready && e.state == CSendFinished
    ensures var a := Add(e, ChangeCipherSpec);
            var b := AddIf(a, p.nextProto, NextProto, pay(NextProto));
            var c := AddIf(b, p.channelId, ChannelId, pay(ChannelId));
            var f := AddFinished(c, false).(state := CFinishFlight, wait := Flushing);
            Moved(p, script, Client, e, inbox, Outcome(f, false)) && AtC(p, script, f)
  {
    hide RestC, Moved, Add, AddIf, AddFinished, When;
    var tail := RestC(p, CFinishFlight);
    var rest2 := When(p.channelId, ClientSays(ChannelId)) + ([ClientSays(Finished)] + tail);
    var rest1 := When(p.nextProto, ClientSays(NextProto)) + rest2;
    UnfoldC(p, CSendFinished);
    assert script[e.n..] == [CcsBy(Client)] + rest1 by {
      assert RestC(p, CSendFinished) == ClientLast(p) + tail;
      Regroup3(When(p.nextProto, ClientSays(NextProto)), When(p.channelId, ClientSays(ChannelId)),
          [ClientSays(Finished)], tail, [CcsBy(Client)]);
    }
    hide ClientLast;
    StaysPut(p, script, Client, e, inbox, Outcome(e, false));
    var a := Add(e, ChangeCipherSpec);
    var b := AddIf(a, p.nextProto, NextProto, pay(NextProto));
    var c := AddIf(b, p.channelId, ChannelId, pay(ChannelId));
    var d := AddFinished(c, false);
    AddCcsMoves(p, script, Client, e, inbox, e, rest1);
    AddIfMoves(p, script, Client, e, inbox, a, p.nextProto, NextProto, pay(NextProto), rest2);
    AddIfMoves(p, script, Client, e, inbox, b, p.channelId, ChannelId, pay(ChannelId), [ClientSays(Finished)] + tail);
    AddFinishedMoves(p, script, Client, e, inbox, c, tail);
    MovedIgnoresState(p, script, Client, e, inbox, Outcome(d, false), CFinishFlight, Flushing);
  }

  /** What follows the optional CertificateStatus. */
  lemma {:induction false} AfterStatus(p: Params)
    requires WFParams(p)
    ensures RestC(p, CReadKeyExchange) == When(SendsSke(p), ServerSays(ServerKeyExchange)) + RestC(p, CReadRequest)
    ensures RestC(p, CReadRequest) == When(p.certRequest, ServerSays(CertificateRequest)) + RestC(p, CReadHelloDone)
    ensures RestC(p, CReadHelloDone) == [ServerSays(ServerHelloDone)] + RestC(p, CSendCertificate)
    ensures RestC(p, CReadStatus) == When(p.sendsStatus, ServerSays(CertificateStatus)) + RestC(p, CVerifyCertificate)
    ensures RestC(p, CVerifyCertificate) == RestC(p, CReadKeyExchange)
  {
  }

  /** The optional messages of the server's first flight. */
  lemma {:induction false} ClientReadsStatus(p: Params, script: seq<Want>, e: End<ClientState>, inbox: seq<Item>,
      v: Verdict, pay: MsgType -> seq<byte>)
    requires WFParams(p) && AtC(p, script, e) && e.wait == Ready && e.state == CReadStatus
    requires HeadOk(script, e.n, Server, e.transcript, inbox, p.clientHasCert)
    ensures ClientStepOk(p, script, e, inbox, ClientDo(p, e, inbox, v, pay))
  {
    AfterStatus(p);
    hide RestC, LinesC, Moved, Expect, ExpectFinished, AddFinished, Hashed, WFParams, Add, AddIf;
    StaysPut(p, script, Client, e, inbox, Outcome(e, false));
    if p.sendsStatus {
      assert When(true, ServerSays(CertificateStatus)) == [ServerSays(CertificateStatus)];
      Advance(script, e.n, ServerSays(CertificateStatus), RestC(p, CVerifyCertificate));
      ClientExpects(p, script, e, inbox, CertificateStatus, v, CVerifyCertificate);
    } else {
      assert RestC(p, CReadStatus) == RestC(p, CVerifyCertificate);
      NotStatus(p, script, e.n);
      ClientPasses(p, script, e, inbox, CVerifyCertificate);
    }
  }

  /** What follows is no CertificateStatus. */
  lemma {:induction false} NotStatus(p: Params, script: seq<Want>, n: nat)
    requires WFParams(p) && (n < |script| ==> script[n..] == RestC(p, CReadKeyExchange))
    ensures n < |script| ==> !script[n].ccs && script[n].kind != CertificateStatus
  {
    AfterStatus(p);
    hide RestC;
    if n < |script| {
      assert script[n] == script[n..][0];
    }
  }

  lemma {:induction false} ClientReadsKeyExchange(p: Params, script: seq<Want>, e: End<ClientState>, inbox: seq<Item>,
      v: Verdict, pay: MsgType -> seq<byte>)
    requires WFParams(p) && AtC(p, script, e) && e.wait == Ready && e.state == CReadKeyExchange
    requires HeadOk(script, e.n, Server, e.transcript, inbox, p.clientHasCert)
    ensures ClientStepOk(p, script, e, inbox, ClientDo(p, e, inbox, v, pay))
  {
    AfterStatus(p);
    hide RestC, LinesC, Moved, Expect, ExpectFinished, AddFinished, Hashed, WFParams, Add, AddIf;
    StaysPut(p, script, Client, e, inbox, Outcome(e, false));
    if SendsSke(p) {
      assert When(true, ServerSays(ServerKeyExchange)) == [ServerSays(ServerKeyExchange)];
      Advance(script, e.n, ServerSays(ServerKeyExchange), RestC(p, CReadRequest));
      ClientExpects(p, script, e, inbox, ServerKeyExchange, v, CReadRequest);
    } else {
      assert RestC(p, CReadKeyExchange) == RestC(p, CReadRequest);
      NotKeyExchange(p, script, e.n);
      ClientPasses(p, script, e, inbox, CReadRequest);
    }
  }

  lemma {:induction false} NotKeyExchange(p: Params, script: seq<Want>, n: nat)
    requires WFParams(p) && (n < |script| ==> script[n..] == RestC(p, CReadRequest))
    ensures n < |script| ==> !script[n].ccs && script[n].kind != ServerKeyExchange
  {
    AfterStatus(p);
    hide RestC;
    if n < |script| {
      assert script[n] == script[n..][0];
    }
  }

  ghost predicate ClientStepOk(p: Params, script: seq<Want>, e: End<ClientState>, inbox: seq<Item>,
      o: Outcome<ClientState>) {
    Moved(p, script, Client, e, inbox, o) && (!o.end.wait.Failed? ==> AtC(p, script, o.end))
  }

  lemma {:induction false} ClientBegins(p: Params, script: seq<Want>, e: End<ClientState>, inbox: seq<Item>,
      v: Verdict, pay: MsgType -> seq<byte>)
    requires WFParams(p) && AtC(p, script, e) && e.wait == Ready
    requires HeadOk(script, e.n, Server, e.transcript, inbox, p.clientHasCert)
    requires e.state == CStart || e.state == CEarlyData || e.state == CReadHelloVerify || e.state == CReadServerHello
    ensures ClientStepOk(p, script, e, inbox, ClientDo(p, e, inbox, v, pay))
  {
    hide RestC, Moved, Expect;
    match e.state
    case CStart =>
      UnfoldC(p, CStart);
      UnfoldC(p, CEarlyData);
      assert RestC(p, CStart) == [ClientSays(ClientHello)] + RestC(p, CEarlyData);
      ClientSends(p, script, e, inbox, Message(ClientHello, Opaque(pay(ClientHello))), CEarlyData, Flushing);
    case CEarlyData =>
      UnfoldC(p, CEarlyData);
      UnfoldC(p, CReadHelloVerify);
      assert RestC(p, CEarlyData) == RestC(p, CReadHelloVerify) == RestC(p, CReadServerHello);
      ClientPasses(p, script, e, inbox, if p.dtls then CReadHelloVerify else CReadServerHello);
    case CReadHelloVerify =>
      var next := if p.resume then CReadTicket else CReadCertificate;
      UnfoldC(p, CReadHelloVerify);
      UnfoldC(p, CReadServerHello);
      assert RestC(p, CReadHelloVerify) == RestC(p, CReadServerHello) == [ServerSays(ServerHello)] + RestC(p, next);
      Advance(script, e.n, ServerSays(ServerHello), RestC(p, next));
      StaysPut(p, script, Client, e, inbox, Outcome(e, false));
      ClientPasses(p, script, e, inbox, CReadServerHello);
    case CReadServerHello =>
      var next := if p.resume then CReadTicket else CReadCertificate;
      UnfoldC(p, CReadServerHello);
      assert RestC(p, CReadServerHello) == [ServerSays(ServerHello)] + RestC(p, next);
      ClientExpects(p, script, e, inbox, ServerHello, v, next);
  }

  lemma {:induction false} ClientHearsServer(p: Params, script: seq<Want>, e: End<ClientState>, inbox: seq<Item>,
      v: Verdict, pay: MsgType -> seq<byte>)
    requires WFParams(p) && AtC(p, script, e) && e.wait == Ready
    requires HeadOk(script, e.n, Server, e.transcript, inbox, p.clientHasCert)
    requires e.state == CReadCertificate || e.state == CVerifyCertificate || e.state == CReadHelloDone
    ensures ClientStepOk(p, script, e, inbox, ClientDo(p, e, inbox, v, pay))
  {
    AfterStatus(p);
    assert RestC(p, CReadCertificate) == When(p.certAuth, ServerSays(Certificate)) + RestC(p, CReadStatus);
    hide RestC, Moved, Expect;
    match e.state
    case CReadCertificate =>
      if p.certAuth {
        ClientExpects(p, script, e, inbox, Certificate, v, CReadStatus);
      } else {
        assert RestC(p, CReadCertificate) == RestC(p, CReadStatus);
        ClientPasses(p, script, e, inbox, CReadStatus);
      }
    case CVerifyCertificate =>
      StaysPut(p, script, Client, e, inbox, Outcome(e, false));
      StaysPut(p, script, Client, e, inbox, Fail(e, Refused));
      ClientPasses(p, script, e, inbox, CReadKeyExchange);
    case CReadHelloDone =>
      ClientExpects(p, script, e, inbox, ServerHelloDone, v, CSendCertificate);
  }

  lemma {:induction false} MovedIgnoresRequest<T>(p: Params, script: seq<Want>, e: End<T>, inbox: seq<Item>,
      o: Outcome<T>)
    requires Moved(p, script, Client, e, inbox, o) && o.took
    ensures Moved(p, script, Client, e, inbox, o.(end := o.end.(certRequest := true)))
  {
  }

  lemma {:induction false} ClientHearsRequest(p: Params, script: seq<Want>, e: End<ClientState>, inbox: seq<Item>,
      v: Verdict, pay: MsgType -> seq<byte>)
    requires WFParams(p) && AtC(p, script, e) && e.wait == Ready && e.state == CReadRequest
    requires HeadOk(script, e.n, Server, e.transcript, inbox, p.clientHasCert)
    ensures ClientStepOk(p, script, e, inbox, ClientDo(p, e, inbox, v, pay))
  {
    AfterStatus(p);
    hide RestC, Moved, Expect;
    StaysPut(p, script, Client, e, inbox, Outcome(e, false));
    if inbox != [] {
      assert script[e.n] == script[e.n..][0];
    }
    if p.certRequest {
      Advance(script, e.n, ServerSays(CertificateRequest), RestC(p, CReadHelloDone));
      ExpectMoves(p, script, Client, e, inbox, CertificateRequest, v, CReadHelloDone);
      var o := Expect(e, inbox, CertificateRequest, v, CReadHelloDone);
      if o.took {
        MovedIgnoresRequest(p, script, e, inbox, o);
      }
    } else {
      assert RestC(p, CReadRequest) == RestC(p, CReadHelloDone);
      ClientPasses(p, script, e, inbox, CReadHelloDone);
    }
  }

  lemma {:induction false} ClientSendsCertificate(p: Params, script: seq<Want>, e: End<ClientState>, inbox: seq<Item>,
      v: Verdict, pay: MsgType -> seq<byte>)
    requires WFParams(p) && AtC(p, script, e) && e.wait == Ready && e.state == CSendCertificate
    requires HeadOk(script, e.n, Server, e.transcript, inbox, p.clientHasCert)
    ensures ClientStepOk(p, script, e, inbox, ClientDo(p, e, inbox, v, pay))
  {
    assert RestC(p, CSendCertificate) == When(p.certRequest, ClientSays(Certificate)) + RestC(p, CSendKeyExchange);
    hide RestC, LinesC, Moved, HeadOk, Expect, ExpectFinished, AddFinished, Hashed;
    StaysPut(p, script, Client, e, inbox, Outcome(e, false));
    StaysPut(p, script, Client, e, inbox, Fail(e, Refused));
    if p.certRequest {
      ClientSends(p, script, e, inbox, Message(Certificate, Chain(if p.clientHasCert then 1 else 0)),
          CSendKeyExchange, Ready);
    } else {
      assert RestC(p, CSendCertificate) == RestC(p, CSendKeyExchange);
      ClientPasses(p, script, e, inbox, CSendKeyExchange);
    }
  }

  lemma {:induction false} ClientSendsKeyExchange(p: Params, script: seq<Want>, e: End<ClientState>, inbox: seq<Item>,
      v: Verdict, pay: MsgType -> seq<byte>)
    requires WFParams(p) && AtC(p, script, e) && e.wait == Ready && e.state == CSendKeyExchange
    requires HeadOk(script, e.n, Server, e.transcript, inbox, p.clientHasCert)
    ensures ClientStepOk(p, script, e, inbox, ClientDo(p, e, inbox, v, pay))
  {
    assert RestC(p, CSendKeyExchange) == [ClientSays(ClientKeyExchange)] + RestC(p, CSendVerify);
    hide RestC, LinesC, Moved, HeadOk, Expect, ExpectFinished, AddFinished, Hashed;
    StaysPut(p, script, Client, e, inbox, Outcome(e, false));
    StaysPut(p, script, Client, e, inbox, Fail(e, Refused));
    ClientSends(p, script, e, inbox, Message(ClientKeyExchange, Opaque(pay(ClientKeyExchange))), CSendVerify, Ready);
  }

  lemma {:induction false} ClientSendsVerify(p: Params, script: seq<Want>, e: End<ClientState>, inbox: seq<Item>,
      v: Verdict, pay: MsgType -> seq<byte>)
    requires WFParams(p) && AtC(p, script, e) && e.wait == Ready && e.state == CSendVerify
    requires HeadOk(script, e.n, Server, e.transcript, inbox, p.clientHasCert)
    ensures ClientStepOk(p, script, e, inbox, ClientDo(p, e, inbox, v, pay))
  {
    assert RestC(p, CSendVerify) == When(p.certRequest && p.clientHasCert, ClientSays(CertificateVerify))
        + RestC(p, CSendFinished);
    hide RestC, LinesC, Moved, HeadOk, Expect, ExpectFinished, AddFinished, Hashed;
    StaysPut(p, script, Client, e, inbox, Outcome(e, false));
    StaysPut(p, script, Client, e, inbox, Fail(e, Refused));
    if p.certRequest && p.clientHasCert {
      ClientSends(p, script, e, inbox, Message(CertificateVerify, Opaque(pay(CertificateVerify))), CSendFinished,
          Ready);
    } else {
      assert RestC(p, CSendVerify) == RestC(p, CSendFinished);
      ClientPasses(p, script, e, inbox, CSendFinished);
    }
  }

  lemma {:induction false} ClientSendsFinished(p: Params, script: seq<Want>, e: End<ClientState>, inbox: seq<Item>,
      v: Verdict, pay: MsgType -> seq<byte>)
    requires WFParams(p) && AtC(p, script, e) && e.wait == Ready && e.state == CSendFinished
    requires HeadOk(script, e.n, Server, e.transcript, inbox, p.clientHasCert)
    ensures ClientStepOk(p, script, e, inbox, ClientDo(p, e, inbox, v, pay))
  {
    hide RestC, LinesC, Moved, HeadOk, Expect, ExpectFinished, Add, AddIf, AddFinished, Hashed;
    StaysPut(p, script, Client, e, inbox, Outcome(e, false));
    StaysPut(p, script, Client, e, inbox, Fail(e, Refused));
    ClientSendsLast(p, script, e, inbox, pay);
  }

  lemma {:induction false} EndLines(p: Params)
    ensures RestC(p, CFinish) == [] && RestC(p, CDone) == []
    ensures RestC(p, CFinishFlight) == if p.resume then [] else RestC(p, CReadTicket)
  {
  }

  lemma {:induction false} CcsLine(p: Params)
    ensures RestC(p, CProcessCcs) == RestC(p, CReadFinished)
  {
  }

  lemma {:induction false} ClientEnds(p: Params, script: seq<Want>, e: End<ClientState>, inbox: seq<Item>, v: Verdict,
      pay: MsgType -> seq<byte>)
    requires WFParams(p) && AtC(p, script, e) && e.wait == Ready
    requires e.state == CFinishFlight || e.state == CProcessCcs || e.state == CFinish || e.state == CDone
    ensures ClientStepOk(p, script, e, inbox, ClientDo(p, e, inbox, v, pay))
  {
    EndLines(p);
    CcsLine(p);
    hide RestC, LinesC, Moved, HeadOk, Expect, ExpectFinished, AddFinished, Hashed;
    StaysPut(p, script, Client, e, inbox, Outcome(e, false));
    match e.state
    case CFinishFlight => ClientPasses(p, script, e, inbox, if p.resume then CFinish else CReadTicket);
    case CProcessCcs => ClientPasses(p, script, e, inbox, CReadFinished);
    case CFinish => ClientPasses(p, script, e, inbox, CDone);
    case CDone =>
  }

  lemma {:induction false} OpenCcsMoves<T>(p: Params, script: seq<Want>, side: Side, e: End<T>, inbox: seq<Item>)
    requires HeadOk(script, e.n, Other(side), e.transcript, inbox, p.clientHasCert) && e.wait == AwaitCcs
    requires e.n < |script| && script[e.n] == CcsBy(Other(side))
    ensures var o := OpenCcs(e, inbox);
            && Moved(p, script, side, e, inbox, o)
            && (o.took ==> o.end == Take(e, inbox[0]).(wait := Ready))
            && (!o.took ==> o.end == e)
  {
    assert Fresh(e.flight, e.flight) == [];
  }

  /** Every step of a client that is in step with the script. */
  lemma {:induction false} ClientKeepsStep(p: Params, script: seq<Want>, e: End<ClientState>, inbox: seq<Item>,
      v: Verdict, pay: MsgType -> seq<byte>)
    requires WFParams(p) && !e.wait.Failed? && AtC(p, script, e)
    requires HeadOk(script, e.n, Server, e.transcript, inbox, p.clientHasCert)
    ensures ClientStepOk(p, script, e, inbox, ClientStep(p, e, inbox, v, pay))
  {
    hide ClientDo, HeadOk;
    if e.wait == AwaitCcs {
      hide RestC, Moved;
      Advance(script, e.n, CcsBy(Server), RestC(p, e.state));
      OpenCcsMoves(p, script, Client, e, inbox);
    } else if e.wait == Flushing {
      hide Moved;
      StaysPut(p, script, Client, e, inbox, Outcome(e, false));
    } else {
      assert ClientStep(p, e, inbox, v, pay) == ClientDo(p, e, inbox, v, pay);
      hide RestC, LinesC, LeftC, ControlC, MaxAddedC, AtC, Order, Moved, ClientStep;
      match e.state
      case CStart => ClientBegins(p, script, e, inbox, v, pay);
      case CEarlyData => ClientBegins(p, script, e, inbox, v, pay);
      case CReadHelloVerify => ClientBegins(p, script, e, inbox, v, pay);
      case CReadServerHello => ClientBegins(p, script, e, inbox, v, pay);
      case CReadCertificate => ClientHearsServer(p, script, e, inbox, v, pay);
      case CVerifyCertificate => ClientHearsServer(p, script, e, inbox, v, pay);
      case CReadHelloDone => ClientHearsServer(p, script, e, inbox, v, pay);
      case CReadRequest => ClientHearsRequest(p, script, e, inbox, v, pay);
      case CReadStatus => ClientReadsStatus(p, script, e, inbox, v, pay);
      case CReadKeyExchange => ClientReadsKeyExchange(p, script, e, inbox, v, pay);
      case CReadTicket => ClientReadsTicket(p, script, e, inbox, v, pay);
      case CReadFinished => ClientReadsFinished(p, script, e, inbox, v, pay);
      case CSendCertificate => ClientSendsCertificate(p, script, e, inbox, v, pay);
      case CSendKeyExchange => ClientSendsKeyExchange(p, script, e, inbox, v, pay);
      case CSendVerify => ClientSendsVerify(p, script, e, inbox, v, pay);
      case CSendFinished => ClientSendsFinished(p, script, e, inbox, v, pay);
      case _ => ClientEnds(p, script, e, inbox, v, pay);
    }
  }
}
