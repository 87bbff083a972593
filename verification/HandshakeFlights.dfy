/** Two handshakes that each keep their flight in a DTLS flight sender: the seven entries of
    dtls1_add_message and dtls1_add_change_cipher_spec are never exceeded. */
module HandshakeFlights {
  import opened Wire
  import opened Reassembly
  import H = Handshake
  import M = HandshakeMachines
  import R = HandshakeRuns
  import Send = HandshakeSend

  /** A message that dtls1_finish_message can build. */
  type Fitting = m: HsMessage | MessageFits(m) witness HsMessage(0, [])

  /** What flush_flight meets: the transport with its MTU, and the AEAD. */
  datatype Conditions = Conditions(shutDown: bool, noQuery: bool, queried: int, aead: nat -> nat -> bool,
                                   accepts: nat -> bool, flushed: bool)

  // ---- what a turn adds ----

  /** What joined the flight was counted. */
  ghost predicate Grown<S>(e: H.End<S>, f: H.End<S>) {
    e.flight <= f.flight && |f.flight| - |e.flight| == f.added - e.added
  }

  lemma {:induction false} AddGrows<S>(e: H.End<S>, f: H.End<S>, item: H.Item)
    requires Grown(e, f)
    ensures Grown(e, H.Add(f, item))
  {
    hide H.Hashed;
  }

  lemma {:induction false} AddIfGrows<S>(e: H.End<S>, f: H.End<S>, present: bool, kind: H.MsgType, bytes: seq<byte>)
    requires Grown(e, f)
    ensures Grown(e, H.AddIf(f, present, kind, bytes))
  {
    hide Grown, H.Add;
    if present {
      AddGrows(e, f, H.Message(kind, H.Opaque(bytes)));
    }
  }

  ghost predicate Still<S>(e: H.End<S>, f: H.End<S>) {
    f.flight == e.flight && f.added == e.added
  }

  /** Reading a message adds nothing. */
  lemma {:induction false} ReadingIsStill<S(!new)>(e: H.End<S>, inbox: seq<H.Item>, v: H.Verdict)
    ensures forall kind, next :: Still(e, H.Expect(e, inbox, kind, v, next).end)
    ensures forall fromServer, next :: Still(e, H.ExpectFinished(e, inbox, fromServer, next).end)
  {
    hide H.Hashed;
  }

  predicate ClientSends(state: H.ClientState) {
    state.CStart? || state.CSendCertificate? || state.CSendKeyExchange? || state.CSendVerify? || state.CSendFinished?
  }

  predicate ClientListens(state: H.ClientState) {
    || state.CReadServerHello? || state.CReadCertificate? || state.CReadStatus? || state.CVerifyCertificate?
    || state.CReadKeyExchange? || state.CReadRequest? || state.CReadHelloDone?
  }

  lemma {:induction false} ClientListensStill(p: H.Params, e: H.End<H.ClientState>, inbox: seq<H.Item>, v: H.Verdict,
      pay: H.MsgType -> seq<byte>)
    requires ClientListens(e.state)
    ensures Still(e, H.ClientDo(p, e, inbox, v, pay).end)
  {
    hide H.Expect, H.ExpectFinished, H.Add, H.AddIf, H.AddFinished;
    ReadingIsStill(e, inbox, v);
  }

  lemma {:induction false} ClientEndsStill(p: H.Params, e: H.End<H.ClientState>, inbox: seq<H.Item>, v: H.Verdict,
      pay: H.MsgType -> seq<byte>)
    requires !ClientSends(e.state) && !ClientListens(e.state)
    ensures Still(e, H.ClientDo(p, e, inbox, v, pay).end)
  {
    hide H.Expect, H.ExpectFinished, H.Add, H.AddIf, H.AddFinished;
    ReadingIsStill(e, inbox, v);
  }

  lemma {:induction false} ClientSendAdds(p: H.Params, e: H.End<H.ClientState>, inbox: seq<H.Item>, v: H.Verdict,
      pay: H.MsgType -> seq<byte>)
    requires ClientSends(e.state)
    ensures Grown(e, H.ClientDo(p, e, inbox, v, pay).end)
  {
    hide H.Add, H.AddIf;
    AddIfGrows(e, e, true, H.ClientHello, pay(H.ClientHello));
    AddGrows(e, e, H.Message(H.Certificate, H.Chain(if p.clientHasCert then 1 else 0)));
    AddIfGrows(e, e, true, H.ClientKeyExchange, pay(H.ClientKeyExchange));
    AddIfGrows(e, e, true, H.CertificateVerify, pay(H.CertificateVerify));
    AddGrows(e, e, H.ChangeCipherSpec);
    var a := H.Add(e, H.ChangeCipherSpec);
    AddIfGrows(e, a, p.nextProto, H.NextProto, pay(H.NextProto));
    var b := H.AddIf(a, p.nextProto, H.NextProto, pay(H.NextProto));
    AddIfGrows(e, b, p.channelId, H.ChannelId, pay(H.ChannelId));
    var c := H.AddIf(b, p.channelId, H.ChannelId, pay(H.ChannelId));
    AddGrows(e, c, H.Message(H.Finished, H.Mac(false, c.transcript)));
  }

  lemma {:induction false} ClientStepAdds(p: H.Params, e: H.End<H.ClientState>, inbox: seq<H.Item>, v: H.Verdict,
      pay: H.MsgType -> seq<byte>)
    ensures Grown(e, H.ClientStep(p, e, inbox, v, pay).end)
  {
    hide H.ClientDo;
    if ClientSends(e.state) {
      ClientSendAdds(p, e, inbox, v, pay);
    } else if ClientListens(e.state) {
      ClientListensStill(p, e, inbox, v, pay);
    } else {
      ClientEndsStill(p, e, inbox, v, pay);
    }
  }

  predicate ServerSends(state: H.ServerState) {
    || state.SSendHello? || state.SSendCertificate? || state.SSendKeyExchange? || state.SSendHelloDone?
    || state.SSendFinished?
  }

  predicate ServerReads(state: H.ServerState) {
    || state.SReadCertificate? || state.SReadKeyExchange? || state.SReadVerify? || state.SReadNextProto?
    || state.SReadChannelId? || state.SReadFinished?
  }

  lemma {:induction false} ServerReadsStill(p: H.Params, e: H.End<H.ServerState>, inbox: seq<H.Item>, v: H.Verdict,
      pay: H.MsgType -> seq<byte>)
    requires ServerReads(e.state)
    ensures Still(e, H.ServerDo(p, e, inbox, v, pay).end)
  {
    hide H.Expect, H.ExpectFinished, H.Add, H.AddIf, H.AddFinished;
    ReadingIsStill(e, inbox, v);
  }

  lemma {:induction false} ServerMovesStill(p: H.Params, e: H.End<H.ServerState>, inbox: seq<H.Item>, v: H.Verdict,
      pay: H.MsgType -> seq<byte>)
    requires !ServerSends(e.state) && !ServerReads(e.state)
    ensures Still(e, H.ServerDo(p, e, inbox, v, pay).end)
  {
    hide H.Expect, H.ExpectFinished, H.Add, H.AddIf, H.AddFinished;
    ReadingIsStill(e, inbox, v);
  }

  lemma {:induction false} ServerSendAdds(p: H.Params, e: H.End<H.ServerState>, inbox: seq<H.Item>, v: H.Verdict,
      pay: H.MsgType -> seq<byte>)
    requires ServerSends(e.state) && !e.state.SSendFinished?
    ensures Grown(e, H.ServerDo(p, e, inbox, v, pay).end)
  {
    hide H.Add, H.AddIf;
    AddIfGrows(e, e, true, H.ServerHello, pay(H.ServerHello));
    AddIfGrows(e, e, p.certAuth, H.Certificate, pay(H.Certificate));
    var chain := H.AddIf(e, p.certAuth, H.Certificate, pay(H.Certificate));
    AddIfGrows(e, chain, p.certAuth && p.sendsStatus, H.CertificateStatus, pay(H.CertificateStatus));
    AddIfGrows(e, e, true, H.ServerKeyExchange, pay(H.ServerKeyExchange));
    AddIfGrows(e, e, e.certRequest, H.CertificateRequest, pay(H.CertificateRequest));
    var asked := H.AddIf(e, e.certRequest, H.CertificateRequest, pay(H.CertificateRequest));
    AddIfGrows(e, asked, true, H.ServerHelloDone, pay(H.ServerHelloDone));
  }

  lemma {:induction false} ServerFinishAdds(p: H.Params, e: H.End<H.ServerState>, inbox: seq<H.Item>, v: H.Verdict,
      pay: H.MsgType -> seq<byte>)
    requires e.state.SSendFinished?
    ensures Grown(e, H.ServerDo(p, e, inbox, v, pay).end)
  {
    hide H.Add, H.AddIf;
    AddIfGrows(e, e, p.ticket, H.NewSessionTicket, pay(H.NewSessionTicket));
    var a := H.AddIf(e, p.ticket, H.NewSessionTicket, pay(H.NewSessionTicket));
    AddGrows(e, a, H.ChangeCipherSpec);
    var b := H.Add(a, H.ChangeCipherSpec);
    AddGrows(e, b, H.Message(H.Finished, H.Mac(true, b.transcript)));
  }

  lemma {:induction false} ServerStepAdds(p: H.Params, e: H.End<H.ServerState>, inbox: seq<H.Item>, v: H.Verdict,
      pay: H.MsgType -> seq<byte>)
    ensures Grown(e, H.ServerStep(p, e, inbox, v, pay).end)
  {
    hide H.ServerDo;
    if e.state.SSendFinished? {
      ServerFinishAdds(p, e, inbox, v, pay);
    } else if ServerSends(e.state) {
      ServerSendAdds(p, e, inbox, v, pay);
    } else if ServerReads(e.state) {
      ServerReadsStill(p, e, inbox, v, pay);
    } else {
      ServerMovesStill(p, e, inbox, v, pay);
    }
  }

  lemma {:induction false} ClientLoopAdds(p: H.Params, e: H.End<H.ClientState>, inbox: seq<H.Item>,
      answers: seq<H.Verdict>, pay: H.MsgType -> seq<byte>)
    ensures var e' := M.ClientLoop(p, e, inbox, answers, pay).0;
            Grown(e, e') && (e.wait == H.Flushing ==> e' == e)
    decreases |answers|
  {
    hide H.ClientStep;
    if !(answers == [] || e.state == H.CDone || e.wait == H.Flushing || e.wait.Failed?) {
      var o := H.ClientStep(p, e, inbox, answers[0], pay);
      ClientStepAdds(p, e, inbox, answers[0], pay);
      ClientLoopAdds(p, o.end, M.Tail(inbox, o.took), answers[1..], pay);
    }
  }

  lemma {:induction false} ServerLoopAdds(p: H.Params, e: H.End<H.ServerState>, inbox: seq<H.Item>,
      answers: seq<H.Verdict>, pay: H.MsgType -> seq<byte>)
    ensures var e' := M.ServerLoop(p, e, inbox, answers, pay).0;
            Grown(e, e') && (e.wait == H.Flushing ==> e' == e)
    decreases |answers|
  {
    hide H.ServerStep;
    if !(answers == [] || e.state == H.SDone || e.wait == H.Flushing || e.wait.Failed?) {
      var o := H.ServerStep(p, e, inbox, answers[0], pay);
      ServerStepAdds(p, e, inbox, answers[0], pay);
      ServerLoopAdds(p, o.end, M.Tail(inbox, o.took), answers[1..], pay);
    }
  }

  // ---- the senders ----

  /** The entry is this item: a ChangeCipherSpec, or the message with a header in front of it. */
  ghost predicate Carried(entry: Send.Outgoing, item: H.Item, say: H.Item -> Fitting) {
    if item.Message? then
      var m := say(item);
      && !entry.isCcs
      && exists n: nat :: n < 0x1_0000
          && entry.data == FragmentBytes(Fragment(WholeHeader(m.msgType, |m.body|, n), m.body))
    else entry.isCcs && entry.data == []
  }

  ghost predicate AllCarried(flight: seq<Send.Outgoing>, items: seq<H.Item>, say: H.Item -> Fitting) {
    |flight| == |items| && forall i :: 0 <= i < |items| ==> Carried(flight[i], items[i], say)
  }

  lemma {:induction false} CarriedMore(flight: seq<Send.Outgoing>, items: seq<H.Item>, say: H.Item -> Fitting,
      more: seq<Send.Outgoing>, others: seq<H.Item>)
    requires AllCarried(flight, items, say) && AllCarried(more, others, say)
    ensures AllCarried(flight + more, items + others, say)
  {
    hide Carried;
  }

  /** The sender holds, entry by entry, what was added since the last completed flush. From the
      first attempt to flush on, the next entry begins a new flight. */
  ghost predicate Holds(sender: Send.FlightSender, added: nat, wait: H.Wait, flight: seq<H.Item>,
      say: H.Item -> Fitting)
    reads sender, sender.writer, sender.outgoing
  {
    && sender.Valid()
    && if sender.complete then wait == H.Flushing || (added == 0 && flight == [])
       else sender.len == added && AllCarried(sender.Flight(), flight, say)
  }

  lemma {:induction false} NothingCarried(say: H.Item -> Fitting)
    ensures AllCarried([], [], say)
  {
  }

  lemma {:induction false} OneCarried(flight: seq<Send.Outgoing>, now: seq<Send.Outgoing>, before: nat,
      items: seq<H.Item>, item: H.Item, say: H.Item -> Fitting)
    requires before + |items| == |flight| && |now| == |flight| + 1 && now[..|flight|] == flight
    requires AllCarried(flight[before..], items, say) && Carried(now[|flight|], item, say)
    ensures AllCarried(now[before..], items + [item], say) && now[..before] == flight[..before]
  {
    hide Carried;
    assert now[before..] == flight[before..] + [now[|flight|]];
    CarriedMore(flight[before..], items, say, [now[|flight|]], [item]);
  }

  /** add_message or add_change_cipher_spec. */
  method AddOne(sender: Send.FlightSender, item: H.Item, say: H.Item -> Fitting) returns (added: bool)
    requires sender.Valid()
    modifies sender, sender.outgoing
    ensures sender.Valid() && !sender.complete
    ensures var before := if old(sender.complete) then [] else old(sender.Flight());
            && (added <==> |before| < MAX_FLIGHT)
            && (added ==>
                  && |sender.Flight()| == |before| + 1 && sender.Flight()[..|before|] == before
                  && Carried(sender.Flight()[|before|], item, say)
                  && sender.writeSeq == (old(sender.writeSeq) + (if item.Message? then 1 else 0)) % 0x1_0000)
  {
    hide FragmentBytes, Send.WholeMessage;
    if item.Message? {
      var m := say(item);
      var message := sender.BuildMessage(m.msgType, m.body);
      added := sender.Add(false, message.value);
    } else {
      added := sender.Add(true, []);
    }
  }

  function Messages(items: seq<H.Item>): nat {
    if items == [] then 0 else Messages(items[..|items| - 1]) + (if items[|items| - 1].Message? then 1 else 0)
  }

  lemma {:induction false} MessagesMore(items: seq<H.Item>, item: H.Item)
    ensures Messages(items + [item]) == Messages(items) + (if item.Message? then 1 else 0)
  {
    assert (items + [item])[..|items|] == items;
  }

  /** The items added so far stand behind `front` in the flight. */
  ghost predicate AddedSoFar(flight: seq<Send.Outgoing>, front: seq<Send.Outgoing>, items: seq<H.Item>,
      say: H.Item -> Fitting) {
    |flight| == |front| + |items| && flight[..|front|] == front && AllCarried(flight[|front|..], items, say)
  }

  lemma {:induction false} AddedOne(flight: seq<Send.Outgoing>, now: seq<Send.Outgoing>, front: seq<Send.Outgoing>,
      items: seq<H.Item>, item: H.Item, say: H.Item -> Fitting)
    requires AddedSoFar(flight, front, items, say)
    requires |now| == |flight| + 1 && now[..|flight|] == flight && Carried(now[|flight|], item, say)
    ensures AddedSoFar(now, front, items + [item], say)
  {
    hide Carried, AllCarried;
    OneCarried(flight, now, |front|, items, item, say);
  }

  lemma {:induction false} AddedNone(front: seq<Send.Outgoing>, say: H.Item -> Fitting)
    ensures AddedSoFar(front, front, [], say)
  {
    assert front[|front|..] == [];
  }

  /** add_message and add_change_cipher_spec for each of the items. */
  method AddAll(sender: Send.FlightSender, items: seq<H.Item>, say: H.Item -> Fitting) returns (all: bool)
    requires sender.Valid()
    modifies sender, sender.outgoing
    ensures sender.Valid()
    ensures var front := if old(sender.complete) then [] else old(sender.Flight());
            && (all <==> |front| + |items| <= MAX_FLIGHT)
            && (all && items != [] ==> !sender.complete && AddedSoFar(sender.Flight(), front, items, say))
    ensures all ==> sender.writeSeq == (old(sender.writeSeq) + Messages(items)) % 0x1_0000
    ensures items == [] ==> sender.complete == old(sender.complete) && sender.Flight() == old(sender.Flight())
  {
    hide Carried, AllCarried, AddedSoFar, Messages;
    ghost var front := if sender.complete then [] else sender.Flight();
    AddedNone(front, say);
    assert Messages(items[..0]) == 0 by {
      NoMessages(items);
    }
    for i := 0 to |items|
      invariant sender.Valid() && |front| + i <= MAX_FLIGHT
      invariant sender.writeSeq == (old(sender.writeSeq) + Messages(items[..i])) % 0x1_0000
      invariant i == 0 ==> sender.complete == old(sender.complete) && sender.Flight() == old(sender.Flight())
      invariant i > 0 ==> !sender.complete
      invariant AddedSoFar(if sender.complete then [] else sender.Flight(), front, items[..i], say)
    {
      ghost var flight := if sender.complete then [] else sender.Flight();
      AddedLength(flight, front, items[..i], say);
      var added := AddOne(sender, items[i], say);
      if !added {
        return false;
      }
      AddedOne(flight, sender.Flight(), front, items[..i], items[i], say);
      MessagesMore(items[..i], items[i]);
      assert items[..i] + [items[i]] == items[..i + 1];
    }
    assert items[..|items|] == items;
    all := true;
  }

  lemma {:induction false} NoMessages(items: seq<H.Item>)
    ensures Messages(items[..0]) == 0
  {
  }

  lemma {:induction false} AddedLength(flight: seq<Send.Outgoing>, front: seq<Send.Outgoing>, items: seq<H.Item>,
      say: H.Item -> Fitting)
    requires AddedSoFar(flight, front, items, say)
    ensures |flight| == |front| + |items|
  {
  }

  lemma {:induction false} AddedCarries(flight: seq<Send.Outgoing>, front: seq<Send.Outgoing>, before: seq<H.Item>,
      items: seq<H.Item>, say: H.Item -> Fitting)
    requires AddedSoFar(flight, front, items, say) && AllCarried(front, before, say)
    ensures AllCarried(flight, before + items, say)
  {
    hide Carried;
    CarriedMore(front, before, say, flight[|front|..], items);
    assert flight[..|front|] + flight[|front|..] == flight;
  }

  /** The sender follows its handshake, whose flight has grown. */
  method Follow(sender: Send.FlightSender, flight: seq<H.Item>, now: seq<H.Item>, say: H.Item -> Fitting,
                ghost added: nat, ghost wait: H.Wait, ghost added': nat, ghost wait': H.Wait)
    returns (all: bool)
    requires Holds(sender, added, wait, flight, say) && flight <= now && |now| - |flight| == added' - added
    requires added' <= MAX_FLIGHT && (wait == H.Flushing ==> now == flight && wait' == wait && added' == added)
    modifies sender, sender.outgoing
    ensures all && Holds(sender, added', wait', now, say)
  {
    hide AllCarried, AddedSoFar, Carried;
    var items := now[|flight|..];
    assert now == flight + items;
    ghost var front := if sender.complete then [] else sender.Flight();
    NothingCarried(say);
    assert |sender.Flight()| == sender.len;
    assert items != [] ==> |front| == added && AllCarried(front, flight, say);
    all := AddAll(sender, items, say);
    assert |sender.Flight()| == sender.len;
    if items == [] {
      assert now == flight;
    } else {
      AddedLength(sender.Flight(), front, items, say);
      AddedCarries(sender.Flight(), front, flight, items, say);
    }
  }

  /** A flush leaves the rest of the flight to be flushed, or nothing. */
  ghost predicate Flushed<S>(e: H.End<S>, f: H.End<S>) {
    e.wait == H.Flushing && (f.wait == H.Flushing || (f.added == 0 && f.flight == []))
  }

  lemma {:induction false} TurnAdds(p: H.Params, c: H.End<H.ClientState>, s: H.End<H.ServerState>, turn: M.Turn,
      toClient: seq<H.Item>, toServer: seq<H.Item>)
    ensures var (c', s') := M.Turned(p, c, s, turn, toClient, toServer);
            match turn
            case ClientTurn(_, _) => s' == s && Grown(c, c') && (c.wait == H.Flushing ==> c' == c)
            case ServerTurn(_, _) => c' == c && Grown(s, s') && (s.wait == H.Flushing ==> s' == s)
            case ClientFlush(_) =>
              s' == s && (c' == c || Flushed(c, c'))
            case ServerFlush(_) =>
              c' == c && (s' == s || Flushed(s, s'))
  {
    hide M.ClientLoop, M.ServerLoop, Grown;
    match turn
    case ClientTurn(answers, pay) => ClientLoopAdds(p, c, toClient, answers, pay);
    case ServerTurn(answers, pay) => ServerLoopAdds(p, s, toServer, answers, pay);
    case ClientFlush(k) =>
    case ServerFlush(k) =>
  }

  ghost function Parts(sender: Send.FlightSender): set<object> {
    {sender, sender.writer, sender.outgoing}
  }

  ghost predicate Apart(a: Send.FlightSender, b: Send.FlightSender) {
    Parts(a) !! Parts(b)
  }

  lemma {:induction false} AtMostSeven(p: H.Params, client: M.Handshake<H.ClientState>,
      server: M.Handshake<H.ServerState>, toClient: seq<H.Item>, toServer: seq<H.Item>, events: seq<H.Event>)
    requires H.WFParams(p) && M.InRun(p, client, server, toClient, toServer, events)
    ensures client.added <= MAX_FLIGHT && server.added <= MAX_FLIGHT
  {
    hide H.Run;
    R.NeverSurprised(p, events);
  }

  /** Each of the two senders holds what its handshake has added. */
  ghost predicate Both(client: M.Handshake<H.ClientState>, server: M.Handshake<H.ServerState>,
      fromClient: Send.FlightSender, fromServer: Send.FlightSender, say: H.Item -> Fitting)
    reads client, server, Parts(fromClient), Parts(fromServer)
  {
    && Holds(fromClient, client.added, client.wait, client.flight, say)
    && Holds(fromServer, server.added, server.wait, server.flight, say)
  }

  /** One turn of the two handshakes, and what it makes the two senders do. */
  method TakeTurn(p: H.Params, client: M.Handshake<H.ClientState>, server: M.Handshake<H.ServerState>,
                  fromClient: Send.FlightSender, fromServer: Send.FlightSender, turn: M.Turn, say: H.Item -> Fitting,
                  c: Conditions, toClient: seq<H.Item>, toServer: seq<H.Item>, ghost events: seq<H.Event>)
    returns (toClient': seq<H.Item>, toServer': seq<H.Item>, all: bool, ghost events': seq<H.Event>)
    requires H.WFParams(p) && M.InRun(p, client, server, toClient, toServer, events) && Apart(fromClient, fromServer)
    requires Both(client, server, fromClient, fromServer, say)
    modifies client, server, Parts(fromClient), Parts(fromServer)
    ensures M.InRun(p, client, server, toClient', toServer', events') && all
    ensures Both(client, server, fromClient, fromServer, say)
  {
    hide M.InRun, M.Turned, H.Run, AllCarried, Send.Unhindered, Send.Reported, Send.SaidOf, Send.GoodPackets;
    TurnAdds(p, client.View(), server.View(), turn, toClient, toServer);
    var clientFlight, serverFlight := client.flight, server.flight;
    ghost var c0, s0 := client.View(), server.View();
    var clientFlushes, serverFlushes := client.wait == H.Flushing, server.wait == H.Flushing;
    toClient', toServer', events' := M.TakeTurn(p, client, server, turn, toClient, toServer, events);
    AtMostSeven(p, client, server, toClient', toServer', events');
    all := true;
    match turn
    case ClientTurn(_, _) =>
      all := Follow(fromClient, clientFlight, client.flight, say, c0.added, c0.wait, client.added, client.wait);
    case ServerTurn(_, _) =>
      all := Follow(fromServer, serverFlight, server.flight, say, s0.added, s0.wait, server.added, server.wait);
    case ClientFlush(k) =>
      if clientFlushes {
        var _, _, _ := fromClient.FlushFlight(c.shutDown, c.noQuery, c.queried, c.aead, c.accepts, c.flushed);
      }
    case ServerFlush(k) =>
      if serverFlushes {
        var _, _, _ := fromServer.FlushFlight(c.shutDown, c.noQuery, c.queried, c.aead, c.accepts, c.flushed);
      }
  }

  /** Two handshakes and their two flight senders, under any schedule, any answers of the
      callbacks, any message bodies, and whatever MTU, AEAD and transport the flushes meet: no
      message and no ChangeCipherSpec is refused because its flight is full, and each sender holds
      what its side added since its last flush. */
  method Converse(p: H.Params, schedule: seq<M.Turn>, say: H.Item -> Fitting, conditions: nat -> Conditions)
    returns (allAdded: bool, client: M.Handshake<H.ClientState>, server: M.Handshake<H.ServerState>,
             fromClient: Send.FlightSender, fromServer: Send.FlightSender)
    requires H.WFParams(p)
    ensures allAdded
    ensures fresh(client) && fresh(server) && fresh(Parts(fromClient)) && fresh(Parts(fromServer))
    ensures Both(client, server, fromClient, fromServer, say)
  {
    hide H.Run;
    client := new M.Handshake(H.CStart);
    server := new M.Handshake(H.SStart);
    fromClient := new Send.FlightSender();
    fromServer := new Send.FlightSender();
    allAdded := true;
    var toClient: seq<H.Item>, toServer: seq<H.Item> := [], [];
    ghost var events: seq<H.Event> := [];
    M.NoEvents(p);
    for i := 0 to |schedule|
      invariant fresh(client) && fresh(server) && fresh(Parts(fromClient)) && fresh(Parts(fromServer))
      invariant allAdded && Apart(fromClient, fromServer)
      invariant M.InRun(p, client, server, toClient, toServer, events)
      invariant Both(client, server, fromClient, fromServer, say)
    {
      var all: bool;
      toClient, toServer, all, events := TakeTurn(p, client, server, fromClient, fromServer, schedule[i], say,
          conditions(i), toClient, toServer, events);
      allAdded := allAdded && all;
    }
  }
}
