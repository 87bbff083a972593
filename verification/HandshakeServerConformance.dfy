/** The same of a server against any peer: what it has heard and said is always the beginning of a
    handshake of its parameters, and all of one when it is done. */
module HandshakeServerConformance {
  import opened Wire
  import opened Handshake
  import opened HandshakeAgreement
  import opened HandshakeAlone
  import opened HandshakeConformance

  // ---- the parts, seen by a server ----

  function ServerPart(q: Params, n: nat): seq<Want> {
    if q.resume then
      match n
      case 1 => [ClientSays(ClientHello)]
      case 2 => [ServerSays(ServerHello)]
      case 3 => ServerLast(q)
      case 4 => [CcsBy(Client)]
      case 5 => When(q.nextProto, ClientSays(NextProto))
      case 6 => When(q.channelId, ClientSays(ChannelId))
      case 7 => [ClientSays(Finished)]
      case _ => []
    else
      match n
      case 1 => [ClientSays(ClientHello)]
      case 2 => [ServerSays(ServerHello)]
      case 3 => When(q.certAuth, ServerSays(Certificate)) + When(q.sendsStatus, ServerSays(CertificateStatus))
      case 4 => When(SendsSke(q), ServerSays(ServerKeyExchange))
      case 5 => When(q.certRequest, ServerSays(CertificateRequest)) + [ServerSays(ServerHelloDone)]
      case 6 => When(q.certRequest, ClientSays(Certificate))
      case 7 => [ClientSays(ClientKeyExchange)]
      case 8 => When(q.certRequest && q.clientHasCert, ClientSays(CertificateVerify))
      case 9 => [CcsBy(Client)]
      case 10 => When(q.nextProto, ClientSays(NextProto))
      case 11 => When(q.channelId, ClientSays(ChannelId))
      case 12 => [ClientSays(Finished)]
      case 13 => ServerLast(q)
      case _ => []
  }

  function ServerUpTo(q: Params, n: nat): seq<Want> {
    if n == 0 then [] else ServerUpTo(q, n - 1) + ServerPart(q, n)
  }

  /** How many parts a server in this state has behind it. */
  function ServerPlace(p: Params, st: ServerState, ccs: bool): nat {
    match st
    case SStart => 0
    case SReadClientHello => 0
    case SSelectCertificate => 0
    case SSelectParameters => 0
    case SSendHello => 1
    case SSendCertificate => 2
    case SSendKeyExchange => 3
    case SSendHelloDone => 4
    case SReadCertificate => 5
    case SVerifyCertificate => 6
    case SReadKeyExchange => 6
    case SReadVerify => 7
    case SReadCcs => if p.resume then 3 else 8
    case SProcessCcs => (if p.resume then 3 else 8) + (if ccs then 1 else 0)
    case SReadNextProto => if p.resume then 4 else 9
    case SReadChannelId => if p.resume then 5 else 10
    case SReadFinished => if p.resume then 6 else 11
    case SSendFinished => if p.resume then 2 else 12
    case SFinish => if p.resume then 7 else 13
    case SDone => if p.resume then 7 else 13
  }

  function PlaceS(p: Params, e: End<ServerState>): nat {
    ServerPlace(p, e.state, e.wait != AwaitCcs)
  }

  // ---- what the client has used ----

  /** A certificate chain that is not empty. */
  predicate IsChain(item: Item) {
    item.Message? && item.kind == Certificate && item.body.Chain? && item.body.certificates > 0
  }

  ghost predicate ChainHeard(log: seq<Entry>) {
    exists i :: 0 <= i < |log| && log[i].side == Client && IsChain(log[i].item)
  }

  /** The server's parameters with what the client really had. */
  ghost function ClientUsed(p: Params, log: seq<Entry>): Params {
    p.(clientHasCert := ChainHeard(log))
  }

  function UsedMoreS(q: Params, item: Item): Params {
    if IsChain(item) then q.(clientHasCert := true) else q
  }

  lemma {:induction false} ChainHeardMore(log: seq<Entry>, item: Item)
    ensures ChainHeard(log + [Entry(Client, item)]) <==> ChainHeard(log) || IsChain(item)
  {
    hide IsChain;
    var all := log + [Entry(Client, item)];
    assert all[|log|] == Entry(Client, item);
    if ChainHeard(log) {
      var i :| 0 <= i < |log| && log[i].side == Client && IsChain(log[i].item);
      assert all[i] == log[i];
    }
    if ChainHeard(all) && !IsChain(item) {
      var i :| 0 <= i < |all| && all[i].side == Client && IsChain(all[i].item);
      assert all[i] == log[i];
    }
  }

  lemma {:induction false} ChainMore(p: Params, log: seq<Entry>, item: Item)
    ensures ClientUsed(p, log + [Entry(Client, item)]) == UsedMoreS(ClientUsed(p, log), item)
  {
    hide ChainHeard, IsChain;
    ChainHeardMore(log, item);
  }

  lemma {:induction false} OwnIsNoChain(log: seq<Entry>, items: seq<Item>)
    ensures ChainHeard(log + By(Server, items)) == ChainHeard(log)
  {
    var all := log + By(Server, items);
    if ChainHeard(log) {
      var i :| 0 <= i < |log| && log[i].side == Client && IsChain(log[i].item);
      assert all[i] == log[i];
    }
  }

  lemma {:induction false} SamePartS(q: Params, r: Params, n: nat)
    requires r == q.(clientHasCert := r.clientHasCert) && n < 8
    ensures ServerPart(r, n) == ServerPart(q, n)
  {
  }

  lemma {:induction false} SamePartsS(q: Params, r: Params, n: nat)
    requires r == q.(clientHasCert := r.clientHasCert) && n < 8
    ensures ServerUpTo(r, n) == ServerUpTo(q, n)
  {
    hide ServerPart;
    if n > 0 {
      SamePartS(q, r, n);
      SamePartsS(q, r, n - 1);
    }
  }

  // ---- what holds of a server ----

  predicate FullOnlyS(st: ServerState) {
    || st.SSendCertificate? || st.SSendKeyExchange? || st.SSendHelloDone? || st.SReadCertificate?
    || st.SVerifyCertificate? || st.SReadKeyExchange? || st.SReadVerify?
  }

  ghost predicate ServerOnPath(p: Params, e: End<ServerState>, inbox: seq<Item>) {
    && (p.resume ==> !FullOnlyS(e.state))
    && (e.wait == AwaitCcs ==> e.state == SProcessCcs)
    && (e.state.SSelectCertificate? || e.state.SSelectParameters? ==> Head(inbox, ClientHello))
    && (FullOnlyS(e.state) ==> e.certRequest == p.certRequest)
    && (e.state.SSendHello? ==> e.certRequest == (p.certRequest && !p.resume))
  }

  ghost predicate ServerShows(p: Params, q: Params, e: End<ServerState>, inbox: seq<Item>) {
    && q == p.(clientHasCert := q.clientHasCert) && e.peerCert == q.clientHasCert && ServerOnPath(p, e, inbox)
    && (q.clientHasCert ==> PlaceS(p, e) >= 6 && p.certRequest)
  }

  ghost predicate ServerFollows(p: Params, s: Solo<ServerState>) {
    !s.end.wait.Failed? ==>
      var q := ClientUsed(p, s.log);
      && FitsAll(ServerUpTo(q, PlaceS(p, s.end)), s.log)
      && s.end.transcript == Said(s.log) && FinishedChecked(s.log, Client)
      && ServerShows(p, q, s.end, s.inbox)
  }

  /** What a reading state waits for is the one line of its part. */
  predicate AwaitedBy(p: Params, q: Params, st: ServerState, item: Item) {
    match st
    case SSelectParameters => item.Message? && item.kind == ClientHello
    case SReadCertificate => item.Message? && item.kind == Certificate && p.certRequest && !p.resume
    case SReadKeyExchange => item.Message? && item.kind == ClientKeyExchange && !p.resume
    case SReadVerify =>
      item.Message? && item.kind == CertificateVerify && p.certRequest && q.clientHasCert && !p.resume
    case SProcessCcs => item.ChangeCipherSpec?
    case SReadNextProto => item.Message? && item.kind == NextProto && p.nextProto
    case SReadChannelId => item.Message? && item.kind == ChannelId && p.channelId
    case SReadFinished => item.Message? && item.kind == Finished
    case _ => false
  }

  lemma {:induction false} AwaitedEarly(p: Params, q: Params, st: ServerState, item: Item)
    requires q == p.(clientHasCert := q.clientHasCert) && AwaitedBy(p, q, st, item) && !p.resume
    requires st.SReadCertificate? || st.SReadKeyExchange? || st.SReadVerify? || st.SSelectParameters?
    ensures ServerPart(UsedMoreS(q, item), ServerPlace(p, st, !st.SProcessCcs?) + 1) == [LineOf(Client, item)]
  {
    hide IsChain, ServerLast;
  }

  lemma {:induction false} AwaitedResumed(p: Params, q: Params, st: ServerState, item: Item)
    requires q == p.(clientHasCert := q.clientHasCert) && AwaitedBy(p, q, st, item) && p.resume
    ensures ServerPart(UsedMoreS(q, item), ServerPlace(p, st, !st.SProcessCcs?) + 1) == [LineOf(Client, item)]
  {
    assert UsedMoreS(q, item) == q;
    hide UsedMoreS, IsChain, ServerLast;
    match st
    case SProcessCcs =>
    case SReadNextProto =>
    case SReadChannelId =>
    case _ =>
  }

  lemma {:induction false} AwaitedLate(p: Params, q: Params, st: ServerState, item: Item)
    requires q == p.(clientHasCert := q.clientHasCert) && AwaitedBy(p, q, st, item) && !p.resume
    requires st.SProcessCcs? || st.SReadNextProto? || st.SReadChannelId? || st.SReadFinished?
    ensures ServerPart(UsedMoreS(q, item), ServerPlace(p, st, !st.SProcessCcs?) + 1) == [LineOf(Client, item)]
  {
    assert UsedMoreS(q, item) == q;
    hide UsedMoreS, IsChain, ServerLast;
    match st
    case SProcessCcs =>
    case SReadNextProto =>
    case SReadChannelId =>
    case _ =>
  }

  lemma {:induction false} AwaitedIsPart(p: Params, q: Params, st: ServerState, item: Item)
    requires q == p.(clientHasCert := q.clientHasCert) && AwaitedBy(p, q, st, item)
    ensures ServerPart(UsedMoreS(q, item), ServerPlace(p, st, !st.SProcessCcs?) + 1) == [LineOf(Client, item)]
  {
    hide ServerPart, ServerPlace, UsedMoreS, LineOf;
    if p.resume {
      AwaitedResumed(p, q, st, item);
    } else if st.SProcessCcs? || st.SReadNextProto? || st.SReadChannelId? || st.SReadFinished? {
      AwaitedLate(p, q, st, item);
    } else {
      AwaitedEarly(p, q, st, item);
    }
  }

  /** What the server says in a state is the part that follows. */
  lemma {:induction false} SaidPart(p: Params, q: Params)
    requires q == p.(clientHasCert := q.clientHasCert)
    ensures ServerPart(q, ServerPlace(p, SSendFinished, true) + 1) == ServerLast(p)
    ensures ServerPart(q, 2) == [ServerSays(ServerHello)]
    ensures !p.resume && SendsSke(p) ==> ServerPart(q, 4) == [ServerSays(ServerKeyExchange)]
  {
    hide ServerLast;
    assert ServerLast(q) == ServerLast(p) by {
      SameLast(p, q);
    }
    if p.resume {
    }
  }

  lemma {:induction false} SameLast(p: Params, q: Params)
    requires q == p.(clientHasCert := q.clientHasCert)
    ensures ServerLast(q) == ServerLast(p)
  {
  }

  /** Parts that are empty for these parameters. */
  lemma {:induction false} QuietPart(p: Params, q: Params)
    requires q == p.(clientHasCert := q.clientHasCert)
    ensures !p.resume && !SendsSke(p) ==> ServerPart(q, 4) == []
    ensures !p.resume && !p.certRequest ==> ServerPart(q, 6) == [] && ServerPart(q, 8) == []
    ensures !p.resume && !q.clientHasCert ==> ServerPart(q, 8) == []
    ensures !p.nextProto ==> ServerPart(q, if p.resume then 5 else 10) == []
    ensures !p.channelId ==> ServerPart(q, if p.resume then 6 else 11) == []
  {
    hide ServerLast;
    if p.resume {
    }
  }

  // ---- one step ----

  ghost predicate JustMovesS(p: Params, q: Params, e: End<ServerState>, inbox: seq<Item>, f: End<ServerState>) {
    var m, n := PlaceS(p, e), PlaceS(p, f);
    && f == e.(state := f.state, wait := f.wait)
    && (!f.wait.Failed? ==> ServerOnPath(p, f, inbox) && (n == m || (n == m + 1 && ServerPart(q, n) == [])))
  }

  ghost predicate HearsNextS(p: Params, q: Params, e: End<ServerState>, item: Item, f: End<ServerState>) {
    var m, n := PlaceS(p, e), PlaceS(p, f);
    && f == Take(e, item).(state := f.state, wait := f.wait, certRequest := f.certRequest, peerCert := f.peerCert)
    && !f.wait.Failed? && ServerOnPath(p, f, []) && n == m + 1
    && ServerPart(UsedMoreS(q, item), n) == [LineOf(Client, item)]
    && f.peerCert == (e.peerCert || IsChain(item))
    && (item.Message? && item.kind == Finished ==> item.body == Mac(false, e.transcript))
    && (IsChain(item) ==> p.certRequest && m < 6 <= n)
  }

  ghost predicate SaysNextS(p: Params, q: Params, e: End<ServerState>, f: End<ServerState>, items: seq<Item>) {
    var m, n := PlaceS(p, e), PlaceS(p, f);
    && f.flight == e.flight + items && f.transcript == HashedAll(e.transcript, items)
    && f.peerCert == e.peerCert && !f.wait.Failed? && ServerOnPath(p, f, [])
    && n == m + 1 && FitsAll(ServerPart(q, n), By(Server, items))
  }

  ghost predicate ServerStepRight(p: Params, q: Params, e: End<ServerState>, inbox: seq<Item>,
      o: Outcome<ServerState>) {
    || (!o.took && JustMovesS(p, q, e, inbox, o.end))
    || (o.took && inbox != [] && HearsNextS(p, q, e, inbox[0], o.end))
    || (!o.took && exists items :: SaysNextS(p, q, e, o.end, items))
  }

  lemma {:induction false} ServerPassesRight(p: Params, q: Params, e: End<ServerState>, inbox: seq<Item>,
      v: Verdict, pay: MsgType -> seq<byte>)
    requires ServerShows(p, q, e, inbox) && e.wait == Ready
    requires e.state.SStart? || e.state.SReadClientHello? || e.state.SSelectCertificate?
    ensures ServerStepRight(p, q, e, inbox, ServerDo(p, e, inbox, v, pay))
  {
    hide HearsNextS, SaysNextS, ServerPart, Add, AddIf, AddFinished, Take, Expect, ExpectFinished;
    assert JustMovesS(p, q, e, inbox, ServerDo(p, e, inbox, v, pay).end);
  }

  lemma {:induction false} ServerClosesRight(p: Params, q: Params, e: End<ServerState>, inbox: seq<Item>,
      v: Verdict, pay: MsgType -> seq<byte>)
    requires ServerShows(p, q, e, inbox) && e.wait == Ready
    requires e.state.SVerifyCertificate? || e.state.SReadCcs? || e.state.SProcessCcs?
    ensures ServerStepRight(p, q, e, inbox, ServerDo(p, e, inbox, v, pay))
  {
    hide HearsNextS, SaysNextS, ServerPart, Add, AddIf, AddFinished, Take, Expect, ExpectFinished;
    assert JustMovesS(p, q, e, inbox, ServerDo(p, e, inbox, v, pay).end);
  }

  lemma {:induction false} ServerEndsRight(p: Params, q: Params, e: End<ServerState>, inbox: seq<Item>,
      v: Verdict, pay: MsgType -> seq<byte>)
    requires ServerShows(p, q, e, inbox) && e.wait == Ready
    requires e.state.SFinish? || e.state.SDone?
    ensures ServerStepRight(p, q, e, inbox, ServerDo(p, e, inbox, v, pay))
  {
    hide HearsNextS, SaysNextS, ServerPart, Add, AddIf, AddFinished, Take, Expect, ExpectFinished;
    assert JustMovesS(p, q, e, inbox, ServerDo(p, e, inbox, v, pay).end);
  }

  lemma {:induction false} ServerParametersRight(p: Params, q: Params, e: End<ServerState>, inbox: seq<Item>,
      v: Verdict, pay: MsgType -> seq<byte>)
    requires ServerShows(p, q, e, inbox) && e.wait == Ready
    requires e.state.SSelectParameters?
    ensures ServerStepRight(p, q, e, inbox, ServerDo(p, e, inbox, v, pay))
  {
    hide SaysNextS, Expect, ExpectFinished, Hashed, ServerPart, UsedMoreS, LineOf;
    ReadingHears(e, inbox, v);
    QuietPart(p, q);
    var o := ServerDo(p, e, inbox, v, pay);
    if o.took {
      AwaitedIsPart(p, q, e.state, inbox[0]);
      assert HearsNextS(p, q, e, inbox[0], o.end);
    } else {
      assert JustMovesS(p, q, e, inbox, o.end);
    }
  }

  lemma {:induction false} ServerCertificateRight(p: Params, q: Params, e: End<ServerState>, inbox: seq<Item>,
      v: Verdict, pay: MsgType -> seq<byte>)
    requires ServerShows(p, q, e, inbox) && e.wait == Ready
    requires e.state.SReadCertificate?
    ensures ServerStepRight(p, q, e, inbox, ServerDo(p, e, inbox, v, pay))
  {
    hide SaysNextS, Expect, ExpectFinished, Hashed, ServerPart, UsedMoreS, LineOf;
    ReadingHears(e, inbox, v);
    QuietPart(p, q);
    var o := ServerDo(p, e, inbox, v, pay);
    if o.took {
      AwaitedIsPart(p, q, e.state, inbox[0]);
      assert HearsNextS(p, q, e, inbox[0], o.end);
    } else {
      assert JustMovesS(p, q, e, inbox, o.end);
    }
  }

  lemma {:induction false} ServerKeyRight(p: Params, q: Params, e: End<ServerState>, inbox: seq<Item>,
      v: Verdict, pay: MsgType -> seq<byte>)
    requires ServerShows(p, q, e, inbox) && e.wait == Ready
    requires e.state.SReadKeyExchange?
    ensures ServerStepRight(p, q, e, inbox, ServerDo(p, e, inbox, v, pay))
  {
    hide SaysNextS, Expect, ExpectFinished, Hashed, ServerPart, UsedMoreS, LineOf;
    ReadingHears(e, inbox, v);
    QuietPart(p, q);
    var o := ServerDo(p, e, inbox, v, pay);
    if o.took {
      AwaitedIsPart(p, q, e.state, inbox[0]);
      assert HearsNextS(p, q, e, inbox[0], o.end);
    } else {
      assert JustMovesS(p, q, e, inbox, o.end);
    }
  }

  lemma {:induction false} ServerVerifyRight(p: Params, q: Params, e: End<ServerState>, inbox: seq<Item>,
      v: Verdict, pay: MsgType -> seq<byte>)
    requires ServerShows(p, q, e, inbox) && e.wait == Ready
    requires e.state.SReadVerify?
    ensures ServerStepRight(p, q, e, inbox, ServerDo(p, e, inbox, v, pay))
  {
    hide SaysNextS, Expect, ExpectFinished, Hashed, ServerPart, UsedMoreS, LineOf;
    ReadingHears(e, inbox, v);
    QuietPart(p, q);
    var o := ServerDo(p, e, inbox, v, pay);
    if o.took {
      AwaitedIsPart(p, q, e.state, inbox[0]);
      assert HearsNextS(p, q, e, inbox[0], o.end);
    } else {
      assert JustMovesS(p, q, e, inbox, o.end);
    }
  }

  lemma {:induction false} ServerNextProtoRight(p: Params, q: Params, e: End<ServerState>, inbox: seq<Item>,
      v: Verdict, pay: MsgType -> seq<byte>)
    requires ServerShows(p, q, e, inbox) && e.wait == Ready
    requires e.state.SReadNextProto?
    ensures ServerStepRight(p, q, e, inbox, ServerDo(p, e, inbox, v, pay))
  {
    hide SaysNextS, Expect, ExpectFinished, Hashed, ServerPart, UsedMoreS, LineOf;
    ReadingHears(e, inbox, v);
    QuietPart(p, q);
    var o := ServerDo(p, e, inbox, v, pay);
    if o.took {
      AwaitedIsPart(p, q, e.state, inbox[0]);
      assert HearsNextS(p, q, e, inbox[0], o.end);
    } else {
      assert JustMovesS(p, q, e, inbox, o.end);
    }
  }

  lemma {:induction false} ServerChannelIdRight(p: Params, q: Params, e: End<ServerState>, inbox: seq<Item>,
      v: Verdict, pay: MsgType -> seq<byte>)
    requires ServerShows(p, q, e, inbox) && e.wait == Ready
    requires e.state.SReadChannelId?
    ensures ServerStepRight(p, q, e, inbox, ServerDo(p, e, inbox, v, pay))
  {
    hide SaysNextS, Expect, ExpectFinished, Hashed, ServerPart, UsedMoreS, LineOf;
    ReadingHears(e, inbox, v);
    QuietPart(p, q);
    var o := ServerDo(p, e, inbox, v, pay);
    if o.took {
      AwaitedIsPart(p, q, e.state, inbox[0]);
      assert HearsNextS(p, q, e, inbox[0], o.end);
    } else {
      assert JustMovesS(p, q, e, inbox, o.end);
    }
  }

  lemma {:induction false} ServerFinishedRight(p: Params, q: Params, e: End<ServerState>, inbox: seq<Item>,
      v: Verdict, pay: MsgType -> seq<byte>)
    requires ServerShows(p, q, e, inbox) && e.wait == Ready
    requires e.state.SReadFinished?
    ensures ServerStepRight(p, q, e, inbox, ServerDo(p, e, inbox, v, pay))
  {
    hide SaysNextS, Expect, ExpectFinished, Hashed, ServerPart, UsedMoreS, LineOf;
    ReadingHears(e, inbox, v);
    QuietPart(p, q);
    var o := ServerDo(p, e, inbox, v, pay);
    if o.took {
      AwaitedIsPart(p, q, e.state, inbox[0]);
      assert HearsNextS(p, q, e, inbox[0], o.end);
    } else {
      assert JustMovesS(p, q, e, inbox, o.end);
    }
  }

  lemma {:induction false} ServerSaysAll(p: Params, q: Params, e: End<ServerState>, g: End<ServerState>,
      o: Outcome<ServerState>, inbox: seq<Item>, items: seq<Item>)
    requires Adds(e, g, items) && !o.took && o.end == g.(state := o.end.state, wait := o.end.wait)
    requires !o.end.wait.Failed? && ServerOnPath(p, o.end, []) && PlaceS(p, o.end) == PlaceS(p, e) + 1
    requires FitsAll(ServerPart(q, PlaceS(p, o.end)), By(Server, items))
    ensures ServerStepRight(p, q, e, inbox, o)
  {
    hide ServerOnPath, PlaceS, ServerPart, FitsAll, JustMovesS, HearsNextS, HashedAll;
    assert SaysNextS(p, q, e, o.end, items);
  }

  lemma {:induction false} OneAdded(e: End<ServerState>, item: Item)
    ensures Adds(e, Add(e, item), [item]) && FitsAll([LineOf(Server, item)], By(Server, [item]))
  {
    AddsNone(e);
    AddsOne(e, e, [], item);
    FitsOne(Server, item);
    assert [] + [item] == [item];
  }

  lemma {:induction false} ServerHelloRight(p: Params, q: Params, e: End<ServerState>, inbox: seq<Item>,
      v: Verdict, pay: MsgType -> seq<byte>)
    requires ServerShows(p, q, e, inbox) && e.wait == Ready
    requires e.state.SSendHello?
    ensures ServerStepRight(p, q, e, inbox, ServerDo(p, e, inbox, v, pay))
  {
    var o, item := ServerDo(p, e, inbox, v, pay), Message(ServerHello, Opaque(pay(ServerHello)));
    assert AddIf(e, true, ServerHello, pay(ServerHello)) == Add(e, item);
    hide ServerStepRight, JustMovesS, HearsNextS, SaysNextS, Add, AddIf, AddFinished, Adds, FitsAll, By, ServerPart;
    AddsKeep<ServerState>();
    OneAdded(e, item);
    SaidPart(p, q);
    ServerSaysAll(p, q, e, Add(e, item), o, inbox, [item]);
  }

  lemma {:induction false} ServerKeySentRight(p: Params, q: Params, e: End<ServerState>, inbox: seq<Item>,
      v: Verdict, pay: MsgType -> seq<byte>)
    requires ServerShows(p, q, e, inbox) && e.wait == Ready
    requires e.state.SSendKeyExchange?
    ensures ServerStepRight(p, q, e, inbox, ServerDo(p, e, inbox, v, pay))
  {
    var o, item := ServerDo(p, e, inbox, v, pay), Message(ServerKeyExchange, Opaque(pay(ServerKeyExchange)));
    assert AddIf(e, true, ServerKeyExchange, pay(ServerKeyExchange)) == Add(e, item);
    hide HearsNextS, SaysNextS, Add, AddIf, AddFinished, Adds, FitsAll, By, ServerPart;
    AddsKeep<ServerState>();
    if SendsSke(p) && v == Proceed {
      OneAdded(e, item);
      SaidPart(p, q);
      ServerSaysAll(p, q, e, Add(e, item), o, inbox, [item]);
    } else {
      QuietPart(p, q);
      assert JustMovesS(p, q, e, inbox, o.end);
    }
  }

  /** Two optional messages one after the other. */
  lemma {:induction false} TwoAdded(e: End<ServerState>, present: bool, kind: MsgType, bytes: seq<byte>, present2: bool,
      kind2: MsgType, bytes2: seq<byte>) returns (items: seq<Item>)
    ensures Adds(e, AddIf(AddIf(e, present, kind, bytes), present2, kind2, bytes2), items)
    ensures FitsAll(When(present, ServerSays(kind)) + When(present2, ServerSays(kind2)), By(Server, items))
  {
    hide Adds, Add, AddIf, FitsAll, By;
    var first, second := Message(kind, Opaque(bytes)), Message(kind2, Opaque(bytes2));
    AddsNone(e);
    AddsIf(e, e, [], present, kind, bytes);
    NothingFits(Server);
    FitsMore([], Server, [], present, first);
    items := [] + if present then [first] else [];
    AddsIf(e, AddIf(e, present, kind, bytes), items, present2, kind2, bytes2);
    var ws := [] + When(present, ServerSays(kind));
    FitsMore(ws, Server, items, present2, second);
    items := items + if present2 then [second] else [];
    assert ws == When(present, ServerSays(kind));
  }

  lemma {:induction false} NothingFits(side: Side)
    ensures FitsAll([], By(side, []))
  {
  }

  lemma {:induction false} ServerCertificateSentRight(p: Params, q: Params, e: End<ServerState>, inbox: seq<Item>,
      v: Verdict, pay: MsgType -> seq<byte>)
    requires ServerShows(p, q, e, inbox) && e.wait == Ready
    requires WFParams(p) && e.state.SSendCertificate?
    ensures ServerStepRight(p, q, e, inbox, ServerDo(p, e, inbox, v, pay))
  {
    var o := ServerDo(p, e, inbox, v, pay);
    var items := TwoAdded(e, p.certAuth, Certificate, pay(Certificate), p.certAuth && p.sendsStatus, CertificateStatus,
        pay(CertificateStatus));
    hide HearsNextS, Add, AddIf, FitsAll;
    AddsKeep<ServerState>();
    if v != Refuse {
      assert SaysNextS(p, q, e, o.end, items);
    } else {
      assert JustMovesS(p, q, e, inbox, o.end);
    }
  }

  lemma {:induction false} ServerHelloDoneRight(p: Params, q: Params, e: End<ServerState>, inbox: seq<Item>,
      v: Verdict, pay: MsgType -> seq<byte>)
    requires ServerShows(p, q, e, inbox) && e.wait == Ready
    requires e.state.SSendHelloDone?
    ensures ServerStepRight(p, q, e, inbox, ServerDo(p, e, inbox, v, pay))
  {
    var o := ServerDo(p, e, inbox, v, pay);
    var items := TwoAdded(e, e.certRequest, CertificateRequest, pay(CertificateRequest), true, ServerHelloDone,
        pay(ServerHelloDone));
    hide HearsNextS, Add, AddIf, FitsAll;
    AddsKeep<ServerState>();
    assert SaysNextS(p, q, e, o.end, items);
  }

  lemma {:induction false} ServerLastFlight(p: Params, e: End<ServerState>, pay: MsgType -> seq<byte>)
    returns (items: seq<Item>)
    ensures var a := AddIf(e, p.ticket, NewSessionTicket, pay(NewSessionTicket));
            Adds(e, AddFinished(Add(a, ChangeCipherSpec), true), items)
    ensures FitsAll(ServerLast(p), By(Server, items))
  {
    hide Adds, Add, FitsAll, By;
    var ticket := Message(NewSessionTicket, Opaque(pay(NewSessionTicket)));
    AddsNone(e);
    NothingFits(Server);
    AddsIf(e, e, [], p.ticket, NewSessionTicket, pay(NewSessionTicket));
    FitsMore([], Server, [], p.ticket, ticket);
    items := [] + if p.ticket then [ticket] else [];
    var a := AddIf(e, p.ticket, NewSessionTicket, pay(NewSessionTicket));
    var ws := [] + When(p.ticket, ServerSays(NewSessionTicket));
    AddsOne(e, a, items, ChangeCipherSpec);
    FitsMore(ws, Server, items, true, ChangeCipherSpec);
    items := items + [ChangeCipherSpec];
    ws := ws + [CcsBy(Server)];
    var b := Add(a, ChangeCipherSpec);
    var last := Message(Finished, Mac(true, b.transcript));
    AddsOne(e, b, items, last);
    FitsMore(ws, Server, items, true, last);
    items := items + [last];
    assert ws + [ServerSays(Finished)] == ServerLast(p);
  }

  lemma {:induction false} ServerFinishedSentRight(p: Params, q: Params, e: End<ServerState>, inbox: seq<Item>,
      v: Verdict, pay: MsgType -> seq<byte>)
    requires ServerShows(p, q, e, inbox) && e.wait == Ready
    requires e.state.SSendFinished?
    ensures ServerStepRight(p, q, e, inbox, ServerDo(p, e, inbox, v, pay))
  {
    var o := ServerDo(p, e, inbox, v, pay);
    hide ServerStepRight, JustMovesS, HearsNextS, SaysNextS, Add, AddIf, AddFinished, Adds, FitsAll, By, ServerPart,
      ServerLast;
    AddsKeep<ServerState>();
    var items := ServerLastFlight(p, e, pay);
    SaidPart(p, q);
    var a := AddIf(e, p.ticket, NewSessionTicket, pay(NewSessionTicket));
    ServerSaysAll(p, q, e, AddFinished(Add(a, ChangeCipherSpec), true), o, inbox, items);
  }

  lemma {:induction false} ServerOpensCcsRight(p: Params, q: Params, e: End<ServerState>, inbox: seq<Item>)
    requires ServerShows(p, q, e, inbox) && e.wait == AwaitCcs
    ensures ServerStepRight(p, q, e, inbox, OpenCcs(e, inbox))
  {
    hide SaysNextS, HearsNextS, JustMovesS, ServerShows;
    var o := OpenCcs(e, inbox);
    if o.took {
      ServerTakesCcs(p, q, e, inbox);
    } else {
      ServerWaitsForCcs(p, q, e, inbox);
    }
  }

  lemma {:induction false} ServerTakesCcs(p: Params, q: Params, e: End<ServerState>, inbox: seq<Item>)
    requires ServerShows(p, q, e, inbox) && e.wait == AwaitCcs && OpenCcs(e, inbox).took
    ensures inbox != [] && HearsNextS(p, q, e, inbox[0], OpenCcs(e, inbox).end)
  {
    hide Hashed, ServerPart, UsedMoreS, LineOf;
    AwaitedIsPart(p, q, e.state, inbox[0]);
  }

  lemma {:induction false} ServerWaitsForCcs(p: Params, q: Params, e: End<ServerState>, inbox: seq<Item>)
    requires ServerShows(p, q, e, inbox) && e.wait == AwaitCcs && !OpenCcs(e, inbox).took
    ensures JustMovesS(p, q, e, inbox, OpenCcs(e, inbox).end)
  {
    hide Hashed, ServerPart, Take;
  }

  lemma {:induction false} ServerStepIsRight(p: Params, q: Params, e: End<ServerState>, inbox: seq<Item>,
      v: Verdict, pay: MsgType -> seq<byte>)
    requires WFParams(p) && ServerShows(p, q, e, inbox)
    ensures ServerStepRight(p, q, e, inbox, ServerStep(p, e, inbox, v, pay))
  {
    if e.wait == Ready {
      assert ServerStep(p, e, inbox, v, pay) == ServerDo(p, e, inbox, v, pay);
      hide ServerShows, ServerStepRight, ServerDo;
      match e.state
      case SSelectParameters => ServerParametersRight(p, q, e, inbox, v, pay);
      case SSendHello => ServerHelloRight(p, q, e, inbox, v, pay);
      case SSendCertificate => ServerCertificateSentRight(p, q, e, inbox, v, pay);
      case SSendKeyExchange => ServerKeySentRight(p, q, e, inbox, v, pay);
      case SSendHelloDone => ServerHelloDoneRight(p, q, e, inbox, v, pay);
      case SReadCertificate => ServerCertificateRight(p, q, e, inbox, v, pay);
      case SReadKeyExchange => ServerKeyRight(p, q, e, inbox, v, pay);
      case SReadVerify => ServerVerifyRight(p, q, e, inbox, v, pay);
      case SReadNextProto => ServerNextProtoRight(p, q, e, inbox, v, pay);
      case SReadChannelId => ServerChannelIdRight(p, q, e, inbox, v, pay);
      case SReadFinished => ServerFinishedRight(p, q, e, inbox, v, pay);
      case SSendFinished => ServerFinishedSentRight(p, q, e, inbox, v, pay);
      case SVerifyCertificate => ServerClosesRight(p, q, e, inbox, v, pay);
      case SReadCcs => ServerClosesRight(p, q, e, inbox, v, pay);
      case SProcessCcs => ServerClosesRight(p, q, e, inbox, v, pay);
      case SFinish => ServerEndsRight(p, q, e, inbox, v, pay);
      case SDone => ServerEndsRight(p, q, e, inbox, v, pay);
      case _ => ServerPassesRight(p, q, e, inbox, v, pay);
    } else if e.wait == AwaitCcs {
      ServerOpensCcsRight(p, q, e, inbox);
    } else {
      hide HearsNextS, SaysNextS, ServerPart, ServerDo;
      assert JustMovesS(p, q, e, inbox, e);
    }
  }

  // ---- runs of a server ----

  lemma {:induction false} StillFollowsS(p: Params, s: Solo<ServerState>, t: Solo<ServerState>)
    requires ServerFollows(p, s) && !s.end.wait.Failed? && t.log == s.log
    requires t.end.transcript == s.end.transcript && t.end.peerCert == s.end.peerCert
    requires !t.end.wait.Failed? ==>
               && ServerOnPath(p, t.end, t.inbox) && PlaceS(p, t.end) >= PlaceS(p, s.end)
               && ServerUpTo(ClientUsed(p, s.log), PlaceS(p, t.end))
                  == ServerUpTo(ClientUsed(p, s.log), PlaceS(p, s.end))
    ensures ServerFollows(p, t)
  {
    hide Said, FinishedChecked, FitsAll, ClientUsed, ServerUpTo, ServerPart, ServerOnPath, PlaceS;
  }

  lemma {:induction false} EmptyPartS(q: Params, n: nat)
    requires n > 0 && ServerPart(q, n) == []
    ensures ServerUpTo(q, n) == ServerUpTo(q, n - 1)
  {
    assert ServerUpTo(q, n - 1) + [] == ServerUpTo(q, n - 1);
  }

  lemma {:induction false} HearsFollowsS(p: Params, s: Solo<ServerState>, t: Solo<ServerState>, item: Item)
    requires ServerFollows(p, s) && !s.end.wait.Failed? && t.log == s.log + [Entry(Client, item)]
    requires HearsNextS(p, ClientUsed(p, s.log), s.end, item, t.end)
    ensures ServerFollows(p, t)
  {
    hide ServerPart, ServerUpTo, PlaceS, Said, FinishedChecked, ClientUsed, FitsAll, FullOnlyS, Hashed, LineOf;
    ChainMore(p, s.log, item);
    CheckedFinished(s.log, Client, item);
    SaidJust(s.log, Client, item);
    FitsHeard(ClientUsed(p, s.log), PlaceS(p, s.end), s.log, item);
  }

  lemma {:induction false} SaidJust(log: seq<Entry>, side: Side, item: Item)
    ensures Said(log + [Entry(side, item)]) == Hashed(Said(log), item)
  {
    assert (log + [Entry(side, item)])[..|log|] == log;
  }

  lemma {:induction false} FitsHeard(q: Params, m: nat, log: seq<Entry>, item: Item)
    requires FitsAll(ServerUpTo(q, m), log) && (IsChain(item) ==> m < 8)
    requires ServerPart(UsedMoreS(q, item), m + 1) == [LineOf(Client, item)]
    ensures FitsAll(ServerUpTo(UsedMoreS(q, item), m + 1), log + [Entry(Client, item)])
  {
    FitsOne(Client, item);
    assert By(Client, [item]) == [Entry(Client, item)];
    hide ServerPart, FitsAll, LineOf, IsChain;
    if IsChain(item) {
      SamePartsS(q, UsedMoreS(q, item), m);
    }
    FitsJoin(ServerUpTo(q, m), log, [LineOf(Client, item)], [Entry(Client, item)]);
  }

  lemma {:induction false} SaysFollowsS(p: Params, s: Solo<ServerState>, t: Solo<ServerState>, items: seq<Item>)
    requires ServerFollows(p, s) && !s.end.wait.Failed? && t.log == s.log + By(Server, items)
    requires SaysNextS(p, ClientUsed(p, s.log), s.end, t.end, items)
    ensures ServerFollows(p, t)
  {
    var q, m := ClientUsed(p, s.log), PlaceS(p, s.end);
    OwnIsNoChain(s.log, items);
    assert !Heard(By(Server, items), Client, Finished);
    CheckedMore(s.log, By(Server, items), Client);
    SaidMore(s.log, Server, items);
    hide ServerPart, PlaceS, Said, FinishedChecked, Fits, FullOnlyS, ChainHeard, HashedAll, Heard, By;
    FitsJoin(ServerUpTo(q, m), s.log, ServerPart(q, m + 1), By(Server, items));
  }

  lemma {:induction false} ServerCallFollows(p: Params, s: Solo<ServerState>, v: Verdict, pay: MsgType -> seq<byte>)
    requires WFParams(p) && ServerFollows(p, s) && !s.end.wait.Failed?
    ensures ServerFollows(p, ServerTurn(p, s, Call(v, pay)))
  {
    hide ServerStep, ServerAsks, ServerOnPath, PlaceS, ServerPart, FitsAll, ClientUsed, HearsNextS, ServerUpTo, Said,
      FinishedChecked, HashedAll;
    var q := ClientUsed(p, s.log);
    var o := ServerStep(p, s.end, s.inbox, v, pay);
    var asks := ServerAsks(p, s.end, s.inbox);
    var t := Recorded(s, o, Server, asks, v);
    ServerStepIsRight(p, q, s.end, s.inbox, v, pay);
    hide ServerFollows, ServerShows;
    if !o.took && JustMovesS(p, q, s.end, s.inbox, o.end) {
      assert s.end.flight + [] == s.end.flight;
      RecordedAdded(s, o, Server, asks, v, []);
      var n := PlaceS(p, o.end);
      if n == PlaceS(p, s.end) + 1 && ServerPart(q, n) == [] {
        EmptyPartS(q, n);
      }
      StillFollowsS(p, s, t);
    } else if o.took {
      HeardFlight(p, q, s.end, s.inbox[0], o.end);
      RecordedTook(s, o, Server, asks, v);
      HearsFollowsS(p, s, t, s.inbox[0]);
    } else {
      var items :| SaysNextS(p, q, s.end, o.end, items);
      RecordedAdded(s, o, Server, asks, v, items);
      SaysFollowsS(p, s, t, items);
    }
  }

  lemma {:induction false} HeardFlight(p: Params, q: Params, e: End<ServerState>, item: Item, f: End<ServerState>)
    requires HearsNextS(p, q, e, item, f)
    ensures f.flight == e.flight
  {
    hide ServerOnPath, ServerPart;
  }

  /** What happens outside a call: items arrive, and the flight is written. */
  lemma {:induction false} ServerOutsideFollows(p: Params, s: Solo<ServerState>, h: Happening)
    requires ServerFollows(p, s) && !s.end.wait.Failed? && !h.Call?
    ensures ServerFollows(p, ServerTurn(p, s, h))
  {
    hide FitsAll, Said, FinishedChecked, ClientUsed, ServerUpTo, ServerPart, ServerStep, Recorded;
    StillFollowsS(p, s, ServerTurn(p, s, h));
  }

  lemma {:induction false} ServerTurnFollows(p: Params, s: Solo<ServerState>, h: Happening)
    requires WFParams(p) && ServerFollows(p, s)
    ensures ServerFollows(p, ServerTurn(p, s, h))
  {
    hide ServerStep, ServerShows, FitsAll, Said, FinishedChecked, ClientUsed, ServerUpTo, PlaceS;
    if s.end.wait.Failed? {
      if h.Call? {
        FailedMachineStays(p, Begun(CStart).end, s.end, s.inbox, h.v, h.pay);
      }
    } else {
      match h
      case Call(v, pay) => ServerCallFollows(p, s, v, pay);
      case _ => ServerOutsideFollows(p, s, h);
    }
  }

  lemma {:induction false} ServerRunFollows(p: Params, hs: seq<Happening>)
    requires WFParams(p)
    ensures ServerFollows(p, ServerAlone(p, hs))
  {
    if hs != [] {
      ServerRunFollows(p, hs[..|hs| - 1]);
      hide ServerFollows, ServerTurn;
      ServerTurnFollows(p, ServerAlone(p, hs[..|hs| - 1]), hs[|hs| - 1]);
    }
  }

  // ---- the whole script ----

  lemma {:induction false} PassesS(q: Params, n: nat, ahead: seq<Want>, next: seq<Want>)
    requires ahead == ServerPart(q, n + 1) + next
    ensures ServerUpTo(q, n) + ahead == ServerUpTo(q, n + 1) + next
  {
    hide ServerPart;
  }

  lemma {:induction false} NothingYetS(q: Params, rest: seq<Want>)
    ensures ServerUpTo(q, 0) + rest == rest
  {
    assert [] + rest == rest;
  }

  lemma {:induction false} ServerBeginLines(q: Params)
    ensures RestS(q, SStart) == ServerPart(q, 1) + RestS(q, SSendHello)
    ensures RestS(q, SSendHello) == ServerPart(q, 2) + RestS(q, if q.resume then SSendFinished else SSendCertificate)
  {
    hide RestS, ServerLast, When;
    UnfoldS(q, SStart);
    UnfoldS(q, SSelectParameters);
    UnfoldS(q, SSendHello);
  }

  lemma {:induction false} ServerSendLines(q: Params)
    requires !q.resume
    ensures RestS(q, SSendCertificate) == ServerPart(q, 3) + RestS(q, SSendKeyExchange)
    ensures RestS(q, SSendKeyExchange) == ServerPart(q, 4) + RestS(q, SSendHelloDone)
    ensures RestS(q, SSendHelloDone) == ServerPart(q, 5) + RestS(q, SReadCertificate)
  {
    hide RestS, ServerLast, When;
    UnfoldS(q, SSendCertificate);
    UnfoldS(q, SSendKeyExchange);
    UnfoldS(q, SSendHelloDone);
    JoinLines(When(q.certAuth, ServerSays(Certificate)), When(q.sendsStatus, ServerSays(CertificateStatus)),
        RestS(q, SSendKeyExchange));
    JoinLines(When(q.certRequest, ServerSays(CertificateRequest)), [ServerSays(ServerHelloDone)],
        RestS(q, SReadCertificate));
  }

  lemma {:induction false} JoinLines(a: seq<Want>, b: seq<Want>, c: seq<Want>)
    ensures a + (b + c) == a + b + c
  {
  }

  lemma {:induction false} ServerReadLines(q: Params)
    requires !q.resume
    ensures RestS(q, SReadCertificate) == ServerPart(q, 6) + RestS(q, SReadKeyExchange)
    ensures RestS(q, SReadKeyExchange) == ServerPart(q, 7) + RestS(q, SReadVerify)
    ensures RestS(q, SReadVerify) == ServerPart(q, 8) + RestS(q, SReadCcs)
  {
    hide RestS, ServerLast, When;
    UnfoldS(q, SReadCertificate);
    UnfoldS(q, SVerifyCertificate);
    UnfoldS(q, SReadKeyExchange);
    UnfoldS(q, SReadVerify);
  }

  lemma {:induction false} ServerResumedLines(q: Params)
    requires q.resume
    ensures RestS(q, SSendFinished) == ServerPart(q, 3) + RestS(q, SReadCcs)
    ensures RestS(q, SReadCcs) == ServerPart(q, 4) + RestS(q, SReadNextProto)
    ensures RestS(q, SReadNextProto) == ServerPart(q, 5) + RestS(q, SReadChannelId)
  {
    hide RestS, ServerLast, When;
    UnfoldS(q, SSendFinished);
    UnfoldS(q, SReadCcs);
    UnfoldS(q, SProcessCcs);
    UnfoldS(q, SReadNextProto);
  }

  lemma {:induction false} ServerResumedEndLines(q: Params)
    requires q.resume
    ensures RestS(q, SReadChannelId) == ServerPart(q, 6) + RestS(q, SReadFinished)
    ensures RestS(q, SReadFinished) == ServerPart(q, 7) + []
  {
    hide RestS, ServerLast, When;
    UnfoldS(q, SReadChannelId);
    UnfoldS(q, SReadFinished);
    UnfoldS(q, SFinish);
  }

  lemma {:induction false} ServerLastLines(q: Params)
    requires !q.resume
    ensures RestS(q, SReadCcs) == ServerPart(q, 9) + RestS(q, SReadNextProto)
    ensures RestS(q, SReadNextProto) == ServerPart(q, 10) + RestS(q, SReadChannelId)
    ensures RestS(q, SReadChannelId) == ServerPart(q, 11) + RestS(q, SReadFinished)
  {
    hide RestS, ServerLast, When;
    UnfoldS(q, SReadCcs);
    UnfoldS(q, SProcessCcs);
    UnfoldS(q, SReadNextProto);
    UnfoldS(q, SReadChannelId);
  }

  lemma {:induction false} ServerEndLines(q: Params)
    requires !q.resume
    ensures RestS(q, SReadFinished) == ServerPart(q, 12) + RestS(q, SSendFinished)
    ensures RestS(q, SSendFinished) == ServerPart(q, 13) + []
  {
    hide RestS, ServerLast, When;
    UnfoldS(q, SReadFinished);
    UnfoldS(q, SSendFinished);
    UnfoldS(q, SFinish);
  }

  /** The numbered parts are the script both machines were written for. */
  lemma {:induction false} ServerPartsAreScript(q: Params)
    ensures ServerUpTo(q, ServerPlace(q, SDone, true)) == RestS(q, SStart)
  {
    hide RestS, ServerPart, ServerUpTo;
    ServerBeginLines(q);
    NothingYetS(q, RestS(q, SStart));
    PassesS(q, 0, RestS(q, SStart), RestS(q, SSendHello));
    if q.resume {
      ServerResumedLines(q);
      ServerResumedEndLines(q);
      PassesS(q, 1, RestS(q, SSendHello), RestS(q, SSendFinished));
      PassesS(q, 2, RestS(q, SSendFinished), RestS(q, SReadCcs));
      PassesS(q, 3, RestS(q, SReadCcs), RestS(q, SReadNextProto));
      PassesS(q, 4, RestS(q, SReadNextProto), RestS(q, SReadChannelId));
      PassesS(q, 5, RestS(q, SReadChannelId), RestS(q, SReadFinished));
      PassesS(q, 6, RestS(q, SReadFinished), []);
      assert ServerUpTo(q, 7) + [] == ServerUpTo(q, 7);
    } else {
      ServerSendLines(q);
      ServerReadLines(q);
      ServerLastLines(q);
      ServerEndLines(q);
      PassesS(q, 1, RestS(q, SSendHello), RestS(q, SSendCertificate));
      PassesS(q, 2, RestS(q, SSendCertificate), RestS(q, SSendKeyExchange));
      PassesS(q, 3, RestS(q, SSendKeyExchange), RestS(q, SSendHelloDone));
      PassesS(q, 4, RestS(q, SSendHelloDone), RestS(q, SReadCertificate));
      PassesS(q, 5, RestS(q, SReadCertificate), RestS(q, SReadKeyExchange));
      PassesS(q, 6, RestS(q, SReadKeyExchange), RestS(q, SReadVerify));
      PassesS(q, 7, RestS(q, SReadVerify), RestS(q, SReadCcs));
      PassesS(q, 8, RestS(q, SReadCcs), RestS(q, SReadNextProto));
      PassesS(q, 9, RestS(q, SReadNextProto), RestS(q, SReadChannelId));
      PassesS(q, 10, RestS(q, SReadChannelId), RestS(q, SReadFinished));
      PassesS(q, 11, RestS(q, SReadFinished), RestS(q, SSendFinished));
      PassesS(q, 12, RestS(q, SSendFinished), []);
      assert ServerUpTo(q, 13) + [] == ServerUpTo(q, 13);
    }
  }

  /** What a server has heard and said: a beginning of the script of its own parameters, for a
      client that has or has not a certificate, and every Finished checked against its own
      transcript; and if it is done, all of it. */
  ghost predicate ServerConforms(p: Params, s: Solo<ServerState>) {
    !s.end.wait.Failed? ==>
      var q := ClientUsed(p, s.log);
      && FitsAll(ServerUpTo(q, PlaceS(p, s.end)), s.log) && FinishedChecked(s.log, Client)
      && s.end.peerCert == ChainHeard(s.log) && (s.end.peerCert ==> p.certRequest)
      && (s.end.state == SDone ==> FitsAll(RestS(q, SStart), s.log))
  }

  lemma {:induction false} FollowsConformsS(p: Params, s: Solo<ServerState>)
    requires ServerFollows(p, s)
    ensures ServerConforms(p, s)
  {
    hide FitsAll, FinishedChecked, ServerUpTo, RestS, Said, ChainHeard, ServerOnPath;
    if !s.end.wait.Failed? {
      ServerPartsAreScript(ClientUsed(p, s.log));
    }
  }

  /** Against any peer, whatever it sends and whenever it is called: a server takes only what the
      script of its parameters has next, and is done only with a whole handshake behind it. */
  lemma {:induction false} ServerConformsToScript(p: Params, hs: seq<Happening>)
    requires WFParams(p)
    ensures ServerConforms(p, ServerAlone(p, hs))
  {
    ServerRunFollows(p, hs);
    FollowsConformsS(p, ServerAlone(p, hs));
  }
}
