/** One handshake machine against any peer: what it has heard and said is always the beginning of a
    handshake of its parameters, and all of one when it is done. */
module HandshakeConformance {
  import opened Wire
  import opened Handshake
  import opened HandshakeAgreement
  import opened HandshakeAlone

  // ---- a handshake in numbered parts ----

  /** Part `n` of the script of a handshake, seen by a client. */
  function ClientPart(q: Params, n: nat): seq<Want> {
    if q.resume then
      match n
      case 1 => [ClientSays(ClientHello)]
      case 2 => [ServerSays(ServerHello)]
      case 3 => When(q.ticket, ServerSays(NewSessionTicket))
      case 4 => [CcsBy(Server)]
      case 5 => [ServerSays(Finished)]
      case 6 => ClientLast(q)
      case _ => []
    else
      match n
      case 1 => [ClientSays(ClientHello)]
      case 2 => [ServerSays(ServerHello)]
      case 3 => When(q.certAuth, ServerSays(Certificate))
      case 4 => When(q.sendsStatus, ServerSays(CertificateStatus))
      case 5 => When(SendsSke(q), ServerSays(ServerKeyExchange))
      case 6 => When(q.certRequest, ServerSays(CertificateRequest))
      case 7 => [ServerSays(ServerHelloDone)]
      case 8 => When(q.certRequest, ClientSays(Certificate))
      case 9 => [ClientSays(ClientKeyExchange)]
      case 10 => When(q.certRequest && q.clientHasCert, ClientSays(CertificateVerify))
      case 11 => ClientLast(q)
      case 12 => When(q.ticket, ServerSays(NewSessionTicket))
      case 13 => [CcsBy(Server)]
      case 14 => [ServerSays(Finished)]
      case _ => []
  }

  /** The parts up to number `n`. */
  function ClientUpTo(q: Params, n: nat): seq<Want> {
    if n == 0 then [] else ClientUpTo(q, n - 1) + ClientPart(q, n)
  }

  /** How many parts a client in this state has behind it. */
  function ClientPlace(p: Params, st: ClientState, ccs: bool): nat {
    match st
    case CStart => 0
    case CEarlyData => 1
    case CReadHelloVerify => 1
    case CReadServerHello => 1
    case CReadCertificate => 2
    case CReadStatus => 3
    case CVerifyCertificate => 4
    case CReadKeyExchange => 4
    case CReadRequest => 5
    case CReadHelloDone => 6
    case CSendCertificate => 7
    case CSendKeyExchange => 8
    case CSendVerify => 9
    case CSendFinished => if p.resume then 5 else 10
    case CFinishFlight => if p.resume then 6 else 11
    case CReadTicket => if p.resume then 2 else 11
    case CProcessCcs => (if p.resume then 3 else 12) + (if ccs then 1 else 0)
    case CReadFinished => if p.resume then 4 else 13
    case CFinish => if p.resume then 6 else 14
    case CDone => if p.resume then 6 else 14
  }

  // ---- histories that fit ----

  ghost predicate FitsAll(ws: seq<Want>, log: seq<Entry>) {
    |ws| == |log| && forall i :: 0 <= i < |ws| ==> Fits(ws[i], log[i].side, log[i].item)
  }

  lemma {:induction false} FitsJoin(ws: seq<Want>, log: seq<Entry>, vs: seq<Want>, more: seq<Entry>)
    requires FitsAll(ws, log) && FitsAll(vs, more)
    ensures FitsAll(ws + vs, log + more)
  {
    hide Fits;
  }

  /** A message of this kind was heard from that side. */
  ghost predicate Heard(log: seq<Entry>, from: Side, kind: MsgType) {
    exists i :: 0 <= i < |log| && log[i].side == from && log[i].item.Message? && log[i].item.kind == kind
  }

  lemma {:induction false} HeardMore(log: seq<Entry>, more: seq<Entry>, from: Side, kind: MsgType)
    ensures Heard(log + more, from, kind) <==> Heard(log, from, kind) || Heard(more, from, kind)
  {
    if Heard(log, from, kind) {
      var i :| 0 <= i < |log| && log[i].side == from && log[i].item.Message? && log[i].item.kind == kind;
      assert (log + more)[i] == log[i];
    }
    if Heard(more, from, kind) {
      var i :| 0 <= i < |more| && more[i].side == from && more[i].item.Message? && more[i].item.kind == kind;
      assert (log + more)[|log| + i] == more[i];
    }
  }

  /** Every Finished from that side is the MAC of exactly what had been heard and said before it. */
  ghost predicate FinishedChecked(log: seq<Entry>, from: Side) {
    forall i :: 0 <= i < |log| && log[i].side == from && log[i].item.Message? && log[i].item.kind == Finished ==>
      log[i].item.body == Mac(from == Server, Said(log[..i]))
  }

  lemma {:induction false} CheckedMore(log: seq<Entry>, more: seq<Entry>, from: Side)
    requires FinishedChecked(log, from) && !Heard(more, from, Finished)
    ensures FinishedChecked(log + more, from)
  {
    var all := log + more;
    forall i | 0 <= i < |all| && all[i].side == from && all[i].item.Message? && all[i].item.kind == Finished
      ensures all[i].item.body == Mac(from == Server, Said(all[..i]))
    {
      if i < |log| {
        assert all[..i] == log[..i];
      }
    }
  }

  lemma {:induction false} CheckedFinished(log: seq<Entry>, from: Side, item: Item)
    requires FinishedChecked(log, from)
    requires item.Message? && item.kind == Finished ==> item.body == Mac(from == Server, Said(log))
    ensures FinishedChecked(log + [Entry(from, item)], from)
  {
    var all := log + [Entry(from, item)];
    forall i | 0 <= i < |all| && all[i].side == from && all[i].item.Message? && all[i].item.kind == Finished
      ensures all[i].item.body == Mac(from == Server, Said(all[..i]))
    {
      assert all[..i] == log[..i];
      assert i == |log| ==> log[..i] == log;
    }
  }

  // ---- the parameters a peer has settled ----

  /** The client's parameters with the options the server has really used. */
  ghost function ServerUsed(p: Params, log: seq<Entry>): Params {
    p.(sendsStatus := Heard(log, Server, CertificateStatus), pskHint := Heard(log, Server, ServerKeyExchange),
       certRequest := Heard(log, Server, CertificateRequest))
  }

  /** Parameters that differ only in options, and those are used behind part `n`. */
  predicate SameOptions(q: Params, r: Params, n: nat) {
    && r == q.(sendsStatus := r.sendsStatus, pskHint := r.pskHint, certRequest := r.certRequest)
    && (r.sendsStatus != q.sendsStatus ==> n < 4) && (r.pskHint != q.pskHint ==> n < 5)
    && (r.certRequest != q.certRequest ==> n < 6)
  }

  lemma {:induction false} SamePart(q: Params, r: Params, n: nat)
    requires SameOptions(q, r, n)
    ensures ClientPart(r, n) == ClientPart(q, n)
    ensures n > 0 ==> SameOptions(q, r, n - 1)
  {
  }

  /** Options that are used later make no difference to the parts before. */
  lemma {:induction false} SameParts(q: Params, r: Params, n: nat)
    requires SameOptions(q, r, n)
    ensures ClientUpTo(r, n) == ClientUpTo(q, n)
  {
    hide ClientPart, SameOptions;
    if n > 0 {
      SamePart(q, r, n);
      SameParts(q, r, n - 1);
    }
  }

  /** States of a handshake that does not resume a session. */
  predicate FullOnly(st: ClientState) {
    || st.CReadCertificate? || st.CReadStatus? || st.CVerifyCertificate? || st.CReadKeyExchange? || st.CReadRequest?
    || st.CReadHelloDone? || st.CSendCertificate? || st.CSendKeyExchange? || st.CSendVerify?
  }

  /** What is known of a client's state apart from its history. */
  ghost predicate ClientOnPath(p: Params, e: End<ClientState>) {
    && (p.resume ==> !FullOnly(e.state))
    && (e.wait == AwaitCcs ==> e.state == CProcessCcs)
  }

  function Place(p: Params, e: End<ClientState>): nat {
    ClientPlace(p, e.state, e.wait != AwaitCcs)
  }

  ghost predicate ClientFollows(p: Params, s: Solo<ClientState>) {
    !s.end.wait.Failed? ==>
      var q, n := ServerUsed(p, s.log), Place(p, s.end);
      && FitsAll(ClientUpTo(q, n), s.log)
      && s.end.transcript == Said(s.log) && FinishedChecked(s.log, Server)
      && s.end.certRequest == q.certRequest
      && (q.sendsStatus ==> p.statusExpected && n >= 4) && (q.pskHint ==> SendsSke(p) && n >= 5)
      && (q.certRequest ==> p.certAuth && n >= 6)
      && ClientOnPath(p, s.end)
  }

  /** A step that only moves. */
  lemma {:induction false} FollowsStill(p: Params, s: Solo<ClientState>, t: Solo<ClientState>)
    requires ClientFollows(p, s) && !s.end.wait.Failed? && t.log == s.log
    requires t.end.transcript == s.end.transcript && t.end.certRequest == s.end.certRequest
    requires !t.end.wait.Failed? ==>
               ClientOnPath(p, t.end) && SamePlace(p, s, t)
    ensures ClientFollows(p, t)
  {
    hide Said, FinishedChecked, FitsAll, ServerUsed, ClientUpTo, ClientPart, ClientOnPath, Place;
    if !t.end.wait.Failed? {
      var q := ServerUsed(p, s.log);
      var m := Place(p, s.end);
      var n := Place(p, t.end);
      if n == m + 1 {
        EmptyPart(q, n);
      }
    }
  }

  lemma {:induction false} EmptyPart(q: Params, n: nat)
    requires n > 0 && ClientPart(q, n) == []
    ensures ClientUpTo(q, n) == ClientUpTo(q, n - 1)
  {
    assert ClientUpTo(q, n - 1) + [] == ClientUpTo(q, n - 1);
  }

  /** The place is the same, or the part in between is empty for what the server has used. */
  ghost predicate SamePlace(p: Params, s: Solo<ClientState>, t: Solo<ClientState>) {
    var m := Place(p, s.end);
    var n := Place(p, t.end);
    n == m || (n == m + 1 && ClientPart(ServerUsed(p, s.log), n) == [])
  }

  /** A step that hears one item of the next part. */
  lemma {:induction false} FollowsHearing(p: Params, s: Solo<ClientState>, t: Solo<ClientState>, item: Item, w: Want)
    requires ClientFollows(p, s) && !s.end.wait.Failed? && !t.end.wait.Failed?
    requires t.log == s.log + [Entry(Server, item)] && Fits(w, Server, item)
    requires t.end.transcript == Hashed(s.end.transcript, item)
    requires item.Message? && item.kind == Finished ==> item.body == Mac(true, s.end.transcript)
    requires ClientOnPath(p, t.end)
    requires var m, n := Place(p, s.end), Place(p, t.end);
             && n == m + 1 && ClientPart(ServerUsed(p, t.log), n) == [w]
             && (item.Message? && item.kind == CertificateStatus ==> p.statusExpected && m < 4 <= n)
             && (item.Message? && item.kind == ServerKeyExchange ==> SendsSke(p) && m < 5 <= n)
             && (item.Message? && item.kind == CertificateRequest ==> p.certAuth && m < 6 <= n)
    requires t.end.certRequest == (s.end.certRequest || (item.Message? && item.kind == CertificateRequest))
    ensures ClientFollows(p, t)
  {
    hide ClientOnPath, Place;
    var entry := Entry(Server, item);
    var q, r := ServerUsed(p, s.log), ServerUsed(p, t.log);
    var m := Place(p, s.end);
    HeardMore(s.log, [entry], Server, CertificateStatus);
    HeardMore(s.log, [entry], Server, ServerKeyExchange);
    HeardMore(s.log, [entry], Server, CertificateRequest);
    HeardOne(item, Server, CertificateStatus);
    HeardOne(item, Server, ServerKeyExchange);
    HeardOne(item, Server, CertificateRequest);
    SameParts(q, r, m);
    CheckedFinished(s.log, Server, item);
    assert (s.log + [entry])[..|s.log|] == s.log;
    assert Said(t.log) == Hashed(Said(s.log), item);
    hide Heard, Said, FinishedChecked, Fits, ClientPart;
    assert FitsAll([w], [entry]);
    FitsJoin(ClientUpTo(q, m), s.log, [w], [entry]);
  }

  lemma {:induction false} HeardOne(item: Item, from: Side, kind: MsgType)
    ensures Heard([Entry(from, item)], from, kind) <==> item.Message? && item.kind == kind
    ensures !Heard([Entry(Other(from), item)], from, kind)
  {
    assert [Entry(from, item)][0] == Entry(from, item);
  }

  /** A step that says the next part. */
  /** What the client says settles nothing about the server. */
  lemma {:induction false} OwnLeavesUsed(p: Params, log: seq<Entry>, items: seq<Item>)
    ensures ServerUsed(p, log + By(Client, items)) == ServerUsed(p, log)
    ensures FinishedChecked(log, Server) ==> FinishedChecked(log + By(Client, items), Server)
  {
    hide FinishedChecked;
    var more := By(Client, items);
    assert forall kind :: !Heard(more, Server, kind);
    hide Heard, By;
    HeardMore(log, more, Server, CertificateStatus);
    HeardMore(log, more, Server, ServerKeyExchange);
    HeardMore(log, more, Server, CertificateRequest);
    if FinishedChecked(log, Server) {
      CheckedMore(log, more, Server);
    }
  }

  lemma {:induction false} FitsPast(q: Params, m: nat, log: seq<Entry>, more: seq<Entry>)
    requires FitsAll(ClientUpTo(q, m), log) && FitsAll(ClientPart(q, m + 1), more)
    ensures FitsAll(ClientUpTo(q, m + 1), log + more)
  {
    hide FitsAll, ClientPart;
    FitsJoin(ClientUpTo(q, m), log, ClientPart(q, m + 1), more);
  }

  lemma {:induction false} FollowsSaying(p: Params, s: Solo<ClientState>, t: Solo<ClientState>, items: seq<Item>)
    requires ClientFollows(p, s) && !s.end.wait.Failed? && !t.end.wait.Failed? && t.log == s.log + By(Client, items)
    requires t.end.transcript == HashedAll(s.end.transcript, items) && t.end.certRequest == s.end.certRequest
    requires ClientOnPath(p, t.end)
    requires var m, n := Place(p, s.end), Place(p, t.end);
             n == m + 1 && FitsAll(ClientPart(ServerUsed(p, s.log), n), By(Client, items))
    ensures ClientFollows(p, t)
  {
    hide ClientOnPath, Place, ServerUsed, Said, HashedAll, FinishedChecked, FitsAll, ClientUpTo, ClientPart, By;
    OwnLeavesUsed(p, s.log, items);
    SaidMore(s.log, Client, items);
    FitsPast(ServerUsed(p, s.log), Place(p, s.end), s.log, By(Client, items));
  }

  // ---- one step of a client ----

  lemma {:induction false} HeardJust(log: seq<Entry>, from: Side, item: Item)
    requires item.Message?
    ensures Heard(log + [Entry(from, item)], from, item.kind)
  {
    assert (log + [Entry(from, item)])[|log|] == Entry(from, item);
  }

  lemma {:induction false} RecordedTook<S>(s: Solo<S>, o: Outcome<S>, me: Side, asks: bool, v: Verdict)
    requires o.took && s.inbox != [] && o.end.flight == s.end.flight
    ensures Recorded(s, o, me, asks, v).log == s.log + [Entry(Other(me), s.inbox[0])]
    ensures Recorded(s, o, me, asks, v).end == o.end
  {
    assert By(me, Fresh(s.end.flight, o.end.flight)) == [];
  }

  lemma {:induction false} RecordedAdded<S>(s: Solo<S>, o: Outcome<S>, me: Side, asks: bool, v: Verdict,
      items: seq<Item>)
    requires !o.took && o.end.flight == s.end.flight + items
    ensures Recorded(s, o, me, asks, v).log == s.log + By(me, items) && Recorded(s, o, me, asks, v).end == o.end
    ensures items == [] ==> Recorded(s, o, me, asks, v).log == s.log
  {
    assert Fresh(s.end.flight, s.end.flight + items) == items;
    assert s.log + [] == s.log;
  }

  /** The line of a script that an item is. */
  function LineOf(side: Side, item: Item): Want {
    if item.ChangeCipherSpec? then CcsBy(side) else Want(side, false, item.kind)
  }

  /** The options after one more item. */
  function UsedMore(q: Params, item: Item): Params {
    if !item.Message? then q
    else if item.kind == CertificateStatus then q.(sendsStatus := true)
    else if item.kind == ServerKeyExchange then q.(pskHint := true)
    else if item.kind == CertificateRequest then q.(certRequest := true)
    else q
  }

  lemma {:induction false} UsedIsMore(p: Params, log: seq<Entry>, item: Item)
    ensures ServerUsed(p, log + [Entry(Server, item)]) == UsedMore(ServerUsed(p, log), item)
  {
    HeardMore(log, [Entry(Server, item)], Server, CertificateStatus);
    HeardMore(log, [Entry(Server, item)], Server, ServerKeyExchange);
    HeardMore(log, [Entry(Server, item)], Server, CertificateRequest);
    HeardOne(item, Server, CertificateStatus);
    HeardOne(item, Server, ServerKeyExchange);
    HeardOne(item, Server, CertificateRequest);
    hide Heard;
  }

  /** What the history says about a client's flags, `q` being the parameters it shows. */
  ghost predicate ClientShows(p: Params, q: Params, e: End<ClientState>) {
    var m := Place(p, e);
    && q == p.(sendsStatus := q.sendsStatus, pskHint := q.pskHint, certRequest := q.certRequest)
    && e.certRequest == q.certRequest && ClientOnPath(p, e)
    && (q.sendsStatus ==> m >= 4) && (q.pskHint ==> m >= 5) && (q.certRequest ==> m >= 6)
  }

  ghost predicate JustMoves(p: Params, q: Params, e: End<ClientState>, f: End<ClientState>) {
    var m, n := Place(p, e), Place(p, f);
    && f == e.(state := f.state, wait := f.wait)
    && (!f.wait.Failed? ==> ClientOnPath(p, f) && (n == m || (n == m + 1 && ClientPart(q, n) == [])))
  }

  ghost predicate HearsNext(p: Params, q: Params, e: End<ClientState>, item: Item, f: End<ClientState>) {
    var m, n := Place(p, e), Place(p, f);
    && f == Take(e, item).(state := f.state, wait := f.wait, certRequest := f.certRequest)
    && !f.wait.Failed? && ClientOnPath(p, f) && n == m + 1
    && ClientPart(UsedMore(q, item), n) == [LineOf(Server, item)]
    && f.certRequest == (e.certRequest || (item.Message? && item.kind == CertificateRequest))
    && (item.Message? && item.kind == Finished ==> item.body == Mac(true, e.transcript))
    && (item.Message? && item.kind == CertificateStatus ==> p.statusExpected && m < 4 <= n)
    && (item.Message? && item.kind == ServerKeyExchange ==> SendsSke(p) && m < 5 <= n)
    && (item.Message? && item.kind == CertificateRequest ==> p.certAuth && m < 6 <= n)
  }

  ghost predicate SaysNext(p: Params, q: Params, e: End<ClientState>, f: End<ClientState>, items: seq<Item>) {
    var m, n := Place(p, e), Place(p, f);
    && f.flight == e.flight + items && f.transcript == HashedAll(e.transcript, items)
    && f.certRequest == e.certRequest && !f.wait.Failed? && ClientOnPath(p, f)
    && n == m + 1 && FitsAll(ClientPart(q, n), By(Client, items))
  }

  /** Every step moves over empty parts, hears the one item of the next part, or says the next
      part; or fails. */
  ghost predicate ClientStepRight(p: Params, q: Params, e: End<ClientState>, inbox: seq<Item>,
      o: Outcome<ClientState>) {
    || (!o.took && JustMoves(p, q, e, o.end))
    || (o.took && inbox != [] && HearsNext(p, q, e, inbox[0], o.end))
    || (!o.took && exists items :: SaysNext(p, q, e, o.end, items))
  }

  /** What reading comes to: the awaited message, and on; or nothing; or a failure. */
  ghost predicate Hears<S>(e: End<S>, inbox: seq<Item>, o: Outcome<S>, kind: MsgType, next: S) {
    || (o.took && Head(inbox, kind) && o.end == Take(e, inbox[0]).(state := next))
    || (!o.took && (o.end == e || (o.end == e.(wait := o.end.wait) && o.end.wait.Failed?)))
  }

  lemma {:induction false} ReadingHears<S(!new)>(e: End<S>, inbox: seq<Item>, v: Verdict)
    ensures forall kind, next {:trigger Expect(e, inbox, kind, v, next)} ::
              Hears(e, inbox, Expect(e, inbox, kind, v, next), kind, next)
    ensures forall fromServer, next {:trigger ExpectFinished(e, inbox, fromServer, next)} ::
              var o := ExpectFinished(e, inbox, fromServer, next);
              Hears(e, inbox, o, Finished, next) && (o.took ==> inbox[0].body == Mac(fromServer, e.transcript))
  {
    hide Take;
  }

  lemma {:induction false} ClientPassesRight(p: Params, q: Params, e: End<ClientState>, inbox: seq<Item>,
      v: Verdict, pay: MsgType -> seq<byte>)
    requires ClientShows(p, q, e) && e.wait == Ready
    requires e.state.CEarlyData? || e.state.CReadHelloVerify? || e.state.CVerifyCertificate? || e.state.CFinishFlight?
    ensures ClientStepRight(p, q, e, inbox, ClientDo(p, e, inbox, v, pay))
  {
    hide HearsNext, SaysNext, ClientPart, Add, AddIf, AddFinished, Take, Expect, ExpectFinished;
    assert JustMoves(p, q, e, ClientDo(p, e, inbox, v, pay).end);
  }

  lemma {:induction false} ClientClosesRight(p: Params, q: Params, e: End<ClientState>, inbox: seq<Item>,
      v: Verdict, pay: MsgType -> seq<byte>)
    requires ClientShows(p, q, e) && e.wait == Ready
    requires e.state.CProcessCcs? || e.state.CFinish? || e.state.CDone?
    ensures ClientStepRight(p, q, e, inbox, ClientDo(p, e, inbox, v, pay))
  {
    hide HearsNext, SaysNext, ClientPart, Add, AddIf, AddFinished, Take, Expect, ExpectFinished;
    assert JustMoves(p, q, e, ClientDo(p, e, inbox, v, pay).end);
  }

  lemma {:induction false} ClientHelloRight(p: Params, q: Params, e: End<ClientState>, inbox: seq<Item>,
      v: Verdict, pay: MsgType -> seq<byte>)
    requires ClientShows(p, q, e) && e.wait == Ready
    requires e.state.CReadServerHello?
    ensures ClientStepRight(p, q, e, inbox, ClientDo(p, e, inbox, v, pay))
  {
    hide SaysNext, Expect, ExpectFinished, Hashed;
    ReadingHears(e, inbox, v);
    var o := ClientDo(p, e, inbox, v, pay);
    if o.took {
      assert HearsNext(p, q, e, inbox[0], o.end);
    } else {
      assert JustMoves(p, q, e, o.end);
    }
  }

  lemma {:induction false} ClientCertificateRight(p: Params, q: Params, e: End<ClientState>, inbox: seq<Item>,
      v: Verdict, pay: MsgType -> seq<byte>)
    requires ClientShows(p, q, e) && e.wait == Ready
    requires e.state.CReadCertificate?
    ensures ClientStepRight(p, q, e, inbox, ClientDo(p, e, inbox, v, pay))
  {
    hide SaysNext, Expect, ExpectFinished, Hashed;
    ReadingHears(e, inbox, v);
    var o := ClientDo(p, e, inbox, v, pay);
    if o.took {
      assert HearsNext(p, q, e, inbox[0], o.end);
    } else {
      assert JustMoves(p, q, e, o.end);
    }
  }

  lemma {:induction false} ClientDoneRight(p: Params, q: Params, e: End<ClientState>, inbox: seq<Item>,
      v: Verdict, pay: MsgType -> seq<byte>)
    requires ClientShows(p, q, e) && e.wait == Ready
    requires e.state.CReadHelloDone?
    ensures ClientStepRight(p, q, e, inbox, ClientDo(p, e, inbox, v, pay))
  {
    hide SaysNext, Expect, ExpectFinished, Hashed;
    ReadingHears(e, inbox, v);
    var o := ClientDo(p, e, inbox, v, pay);
    if o.took {
      assert HearsNext(p, q, e, inbox[0], o.end);
    } else {
      assert JustMoves(p, q, e, o.end);
    }
  }

  lemma {:induction false} ClientStatusRight(p: Params, q: Params, e: End<ClientState>, inbox: seq<Item>,
      v: Verdict, pay: MsgType -> seq<byte>)
    requires ClientShows(p, q, e) && e.wait == Ready
    requires e.state.CReadStatus?
    ensures ClientStepRight(p, q, e, inbox, ClientDo(p, e, inbox, v, pay))
  {
    hide SaysNext, Expect, ExpectFinished, Hashed;
    ReadingHears(e, inbox, v);
    var o := ClientDo(p, e, inbox, v, pay);
    if o.took {
      assert HearsNext(p, q, e, inbox[0], o.end);
    } else {
      assert JustMoves(p, q, e, o.end);
    }
  }

  lemma {:induction false} ClientKeyRight(p: Params, q: Params, e: End<ClientState>, inbox: seq<Item>,
      v: Verdict, pay: MsgType -> seq<byte>)
    requires ClientShows(p, q, e) && e.wait == Ready
    requires e.state.CReadKeyExchange?
    ensures ClientStepRight(p, q, e, inbox, ClientDo(p, e, inbox, v, pay))
  {
    hide SaysNext, Expect, ExpectFinished, Hashed;
    ReadingHears(e, inbox, v);
    var o := ClientDo(p, e, inbox, v, pay);
    if o.took {
      assert HearsNext(p, q, e, inbox[0], o.end);
    } else {
      assert JustMoves(p, q, e, o.end);
    }
  }

  lemma {:induction false} ClientRequestRight(p: Params, q: Params, e: End<ClientState>, inbox: seq<Item>,
      v: Verdict, pay: MsgType -> seq<byte>)
    requires ClientShows(p, q, e) && e.wait == Ready
    requires e.state.CReadRequest?
    ensures ClientStepRight(p, q, e, inbox, ClientDo(p, e, inbox, v, pay))
  {
    hide SaysNext, Expect, ExpectFinished, Hashed;
    ReadingHears(e, inbox, v);
    var o := ClientDo(p, e, inbox, v, pay);
    if o.took {
      assert HearsNext(p, q, e, inbox[0], o.end);
    } else {
      assert JustMoves(p, q, e, o.end);
    }
  }

  lemma {:induction false} ClientTicketRight(p: Params, q: Params, e: End<ClientState>, inbox: seq<Item>,
      v: Verdict, pay: MsgType -> seq<byte>)
    requires ClientShows(p, q, e) && e.wait == Ready
    requires e.state.CReadTicket?
    ensures ClientStepRight(p, q, e, inbox, ClientDo(p, e, inbox, v, pay))
  {
    hide SaysNext, Expect, ExpectFinished, Hashed;
    ReadingHears(e, inbox, v);
    var o := ClientDo(p, e, inbox, v, pay);
    if o.took {
      assert HearsNext(p, q, e, inbox[0], o.end);
    } else {
      assert JustMoves(p, q, e, o.end);
    }
  }

  lemma {:induction false} ClientFinishedRight(p: Params, q: Params, e: End<ClientState>, inbox: seq<Item>,
      v: Verdict, pay: MsgType -> seq<byte>)
    requires ClientShows(p, q, e) && e.wait == Ready
    requires e.state.CReadFinished?
    ensures ClientStepRight(p, q, e, inbox, ClientDo(p, e, inbox, v, pay))
  {
    hide SaysNext, Expect, ExpectFinished, Hashed;
    ReadingHears(e, inbox, v);
    var o := ClientDo(p, e, inbox, v, pay);
    if o.took {
      assert HearsNext(p, q, e, inbox[0], o.end);
    } else {
      assert JustMoves(p, q, e, o.end);
    }
  }

  /** `f` is `e` after adding these items to the flight. */
  ghost predicate Adds<S>(e: End<S>, f: End<S>, items: seq<Item>) {
    && f.flight == e.flight + items && f.transcript == HashedAll(e.transcript, items)
    && f.certRequest == e.certRequest && f.peerCert == e.peerCert
  }

  lemma {:induction false} AddsNone<S>(e: End<S>)
    ensures Adds(e, e, [])
  {
    assert e.flight + [] == e.flight;
  }

  lemma {:induction false} AddsOne<S>(e: End<S>, f: End<S>, items: seq<Item>, item: Item)
    requires Adds(e, f, items)
    ensures Adds(e, Add(f, item), items + [item])
  {
    HashedAllMore(e.transcript, items, item);
    assert e.flight + items + [item] == e.flight + (items + [item]);
  }

  lemma {:induction false} AddsIf<S>(e: End<S>, f: End<S>, items: seq<Item>, present: bool, kind: MsgType,
      bytes: seq<byte>)
    requires Adds(e, f, items)
    ensures Adds(e, AddIf(f, present, kind, bytes), items + if present then [Message(kind, Opaque(bytes))] else [])
  {
    hide Adds, Add;
    if present {
      AddsOne(e, f, items, Message(kind, Opaque(bytes)));
    } else {
      assert items + [] == items;
    }
  }

  lemma {:induction false} FitsOne(side: Side, item: Item)
    ensures FitsAll([LineOf(side, item)], By(side, [item]))
  {
  }

  lemma {:induction false} ByJoin(side: Side, a: seq<Item>, b: seq<Item>)
    ensures By(side, a + b) == By(side, a) + By(side, b)
  {
  }

  /** One more optional item fits one more optional line. */
  lemma {:induction false} FitsMore(ws: seq<Want>, side: Side, items: seq<Item>, present: bool, item: Item)
    requires FitsAll(ws, By(side, items))
    ensures FitsAll(ws + When(present, LineOf(side, item)), By(side, items + if present then [item] else []))
  {
    hide Fits;
    if present {
      FitsOne(side, item);
      ByJoin(side, items, [item]);
      FitsJoin(ws, By(side, items), [LineOf(side, item)], By(side, [item]));
    } else {
      assert items + [] == items && ws + [] == ws;
    }
  }

  lemma {:induction false} ClientSaysOne(p: Params, q: Params, e: End<ClientState>, f: End<ClientState>, item: Item)
    requires f == Add(e, item).(state := f.state, wait := f.wait) && !f.wait.Failed? && ClientOnPath(p, f)
    requires Place(p, f) == Place(p, e) + 1 && ClientPart(q, Place(p, f)) == [LineOf(Client, item)]
    ensures SaysNext(p, q, e, f, [item])
  {
    hide ClientOnPath, Place, ClientPart, FitsAll;
    AddsNone(e);
    AddsOne(e, e, [], item);
    assert [] + [item] == [item];
    FitsOne(Client, item);
  }

  lemma {:induction false} ClientStartRight(p: Params, q: Params, e: End<ClientState>, inbox: seq<Item>,
      v: Verdict, pay: MsgType -> seq<byte>)
    requires ClientShows(p, q, e) && e.wait == Ready
    requires e.state.CStart?
    ensures ClientStepRight(p, q, e, inbox, ClientDo(p, e, inbox, v, pay))
  {
    var o, item := ClientDo(p, e, inbox, v, pay), Message(ClientHello, Opaque(pay(ClientHello)));
    hide HearsNext, SaysNext, Add, ExpectFinished, Expect;
    AddsKeep<ClientState>();
    ClientSaysOne(p, q, e, o.end, item);
    assert SaysNext(p, q, e, o.end, [item]);
  }

  lemma {:induction false} ClientSendsCertificateRight(p: Params, q: Params, e: End<ClientState>, inbox: seq<Item>,
      v: Verdict, pay: MsgType -> seq<byte>)
    requires ClientShows(p, q, e) && e.wait == Ready
    requires e.state.CSendCertificate?
    ensures ClientStepRight(p, q, e, inbox, ClientDo(p, e, inbox, v, pay))
  {
    var o, item := ClientDo(p, e, inbox, v, pay), Message(Certificate, Chain(if p.clientHasCert then 1 else 0));
    hide HearsNext, SaysNext, Add, ExpectFinished, Expect;
    AddsKeep<ClientState>();
    if e.certRequest && v == Proceed {
      ClientSaysOne(p, q, e, o.end, item);
      assert SaysNext(p, q, e, o.end, [item]);
    } else {
      assert JustMoves(p, q, e, o.end);
    }
  }

  lemma {:induction false} ClientSendsKeyRight(p: Params, q: Params, e: End<ClientState>, inbox: seq<Item>,
      v: Verdict, pay: MsgType -> seq<byte>)
    requires ClientShows(p, q, e) && e.wait == Ready
    requires e.state.CSendKeyExchange?
    ensures ClientStepRight(p, q, e, inbox, ClientDo(p, e, inbox, v, pay))
  {
    var o, item := ClientDo(p, e, inbox, v, pay), Message(ClientKeyExchange, Opaque(pay(ClientKeyExchange)));
    hide HearsNext, SaysNext, Add, ExpectFinished, Expect;
    AddsKeep<ClientState>();
    if v == Proceed {
      ClientSaysOne(p, q, e, o.end, item);
      assert SaysNext(p, q, e, o.end, [item]);
    } else {
      assert JustMoves(p, q, e, o.end);
    }
  }

  lemma {:induction false} ClientSendsVerifyRight(p: Params, q: Params, e: End<ClientState>, inbox: seq<Item>,
      v: Verdict, pay: MsgType -> seq<byte>)
    requires ClientShows(p, q, e) && e.wait == Ready
    requires e.state.CSendVerify?
    ensures ClientStepRight(p, q, e, inbox, ClientDo(p, e, inbox, v, pay))
  {
    var o, item := ClientDo(p, e, inbox, v, pay), Message(CertificateVerify, Opaque(pay(CertificateVerify)));
    hide HearsNext, SaysNext, Add, ExpectFinished, Expect;
    AddsKeep<ClientState>();
    if e.certRequest && p.clientHasCert && v == Proceed {
      ClientSaysOne(p, q, e, o.end, item);
      assert SaysNext(p, q, e, o.end, [item]);
    } else {
      assert JustMoves(p, q, e, o.end);
    }
  }

  /** The items of the client's last flight. */
  lemma {:induction false} ClientLastFlight(p: Params, e: End<ClientState>, pay: MsgType -> seq<byte>)
    returns (items: seq<Item>)
    ensures var b := AddIf(Add(e, ChangeCipherSpec), p.nextProto, NextProto, pay(NextProto));
            Adds(e, AddFinished(AddIf(b, p.channelId, ChannelId, pay(ChannelId)), false), items)
    ensures FitsAll(ClientLast(p), By(Client, items))
  {
    hide Adds, Add, FitsAll, Fits, By;
    var a := Add(e, ChangeCipherSpec);
    AddsNone(e);
    AddsOne(e, e, [], ChangeCipherSpec);
    items := [ChangeCipherSpec];
    assert [] + items == items;
    var next, channel := Message(NextProto, Opaque(pay(NextProto))), Message(ChannelId, Opaque(pay(ChannelId)));
    FitsOne(Client, ChangeCipherSpec);
    FitsMore([CcsBy(Client)], Client, items, p.nextProto, next);
    AddsIf(e, a, items, p.nextProto, NextProto, pay(NextProto));
    items := items + if p.nextProto then [next] else [];
    var b := AddIf(a, p.nextProto, NextProto, pay(NextProto));
    var ws := [CcsBy(Client)] + When(p.nextProto, ClientSays(NextProto));
    FitsMore(ws, Client, items, p.channelId, channel);
    AddsIf(e, b, items, p.channelId, ChannelId, pay(ChannelId));
    items := items + if p.channelId then [channel] else [];
    var c := AddIf(b, p.channelId, ChannelId, pay(ChannelId));
    ws := ws + When(p.channelId, ClientSays(ChannelId));
    var last := Message(Finished, Mac(false, c.transcript));
    FitsMore(ws, Client, items, true, last);
    AddsOne(e, c, items, last);
    items := items + [last];
    assert ws + [ClientSays(Finished)] == ClientLast(p);
  }

  lemma {:induction false} ClientSendsFinishedRight(p: Params, q: Params, e: End<ClientState>, inbox: seq<Item>,
      v: Verdict, pay: MsgType -> seq<byte>)
    requires ClientShows(p, q, e) && e.wait == Ready
    requires e.state.CSendFinished?
    ensures ClientStepRight(p, q, e, inbox, ClientDo(p, e, inbox, v, pay))
  {
    var o := ClientDo(p, e, inbox, v, pay);
    var items := ClientLastFlight(p, e, pay);
    hide HearsNext, Add, AddIf, AddFinished, FitsAll, By;
    if !p.channelId || v == Proceed {
      assert ClientLast(q) == ClientLast(p);
      hide ClientLast;
      assert SaysNext(p, q, e, o.end, items);
    } else {
      assert JustMoves(p, q, e, o.end);
    }
  }

  lemma {:induction false} ClientOpensCcsRight(p: Params, q: Params, e: End<ClientState>, inbox: seq<Item>)
    requires ClientShows(p, q, e) && e.wait == AwaitCcs
    ensures ClientStepRight(p, q, e, inbox, OpenCcs(e, inbox))
  {
    hide SaysNext, Hashed;
    var o := OpenCcs(e, inbox);
    if o.took {
      assert HearsNext(p, q, e, inbox[0], o.end);
    } else {
      assert JustMoves(p, q, e, o.end);
    }
  }

  lemma {:induction false} ClientStepIsRight(p: Params, q: Params, e: End<ClientState>, inbox: seq<Item>,
      v: Verdict, pay: MsgType -> seq<byte>)
    requires ClientShows(p, q, e)
    ensures ClientStepRight(p, q, e, inbox, ClientStep(p, e, inbox, v, pay))
  {
    if e.wait == Ready {
      assert ClientStep(p, e, inbox, v, pay) == ClientDo(p, e, inbox, v, pay);
      hide ClientShows, ClientStepRight, ClientDo;
      match e.state
      case CStart => ClientStartRight(p, q, e, inbox, v, pay);
      case CReadServerHello => ClientHelloRight(p, q, e, inbox, v, pay);
      case CReadCertificate => ClientCertificateRight(p, q, e, inbox, v, pay);
      case CReadStatus => ClientStatusRight(p, q, e, inbox, v, pay);
      case CReadKeyExchange => ClientKeyRight(p, q, e, inbox, v, pay);
      case CReadRequest => ClientRequestRight(p, q, e, inbox, v, pay);
      case CReadHelloDone => ClientDoneRight(p, q, e, inbox, v, pay);
      case CSendCertificate => ClientSendsCertificateRight(p, q, e, inbox, v, pay);
      case CSendKeyExchange => ClientSendsKeyRight(p, q, e, inbox, v, pay);
      case CSendVerify => ClientSendsVerifyRight(p, q, e, inbox, v, pay);
      case CSendFinished => ClientSendsFinishedRight(p, q, e, inbox, v, pay);
      case CReadTicket => ClientTicketRight(p, q, e, inbox, v, pay);
      case CReadFinished => ClientFinishedRight(p, q, e, inbox, v, pay);
      case CProcessCcs => ClientClosesRight(p, q, e, inbox, v, pay);
      case CFinish => ClientClosesRight(p, q, e, inbox, v, pay);
      case CDone => ClientClosesRight(p, q, e, inbox, v, pay);
      case _ => ClientPassesRight(p, q, e, inbox, v, pay);
    } else if e.wait == AwaitCcs {
      ClientOpensCcsRight(p, q, e, inbox);
    } else {
      hide HearsNext, SaysNext, ClientPart, ClientDo;
      assert JustMoves(p, q, e, e);
    }
  }

  // ---- runs of a client ----

  lemma {:induction false} FollowsShows(p: Params, s: Solo<ClientState>)
    requires ClientFollows(p, s) && !s.end.wait.Failed?
    ensures ClientShows(p, ServerUsed(p, s.log), s.end)
  {
    hide FitsAll, Said, FinishedChecked, Heard, ClientUpTo, ClientOnPath, Place;
  }

  lemma {:induction false} ClientCallFollows(p: Params, s: Solo<ClientState>, v: Verdict, pay: MsgType -> seq<byte>)
    requires ClientFollows(p, s) && !s.end.wait.Failed?
    ensures ClientFollows(p, ClientTurn(p, s, Call(v, pay)))
  {
    var q := ServerUsed(p, s.log);
    var o := ClientStep(p, s.end, s.inbox, v, pay);
    var asks := ClientAsks(p, s.end, s.inbox);
    var t := Recorded(s, o, Client, asks, v);
    FollowsShows(p, s);
    ClientStepIsRight(p, q, s.end, s.inbox, v, pay);
    hide ClientStep, ClientShows, ClientAsks, ClientFollows, ClientOnPath, Place, ClientPart, FitsAll, ServerUsed;
    if !o.took && JustMoves(p, q, s.end, o.end) {
      assert s.end.flight + [] == s.end.flight;
      RecordedAdded(s, o, Client, asks, v, []);
      FollowsStill(p, s, t);
    } else if o.took {
      var item := s.inbox[0];
      RecordedTook(s, o, Client, asks, v);
      UsedIsMore(p, s.log, item);
      FollowsHearing(p, s, t, item, LineOf(Server, item));
    } else {
      var items :| SaysNext(p, q, s.end, o.end, items);
      RecordedAdded(s, o, Client, asks, v, items);
      FollowsSaying(p, s, t, items);
    }
  }

  lemma {:induction false} ClientTurnFollows(p: Params, s: Solo<ClientState>, h: Happening)
    requires ClientFollows(p, s)
    ensures ClientFollows(p, ClientTurn(p, s, h))
  {
    if s.end.wait.Failed? {
      if h.Call? {
        FailedMachineStays(p, s.end, Begun(SStart).end, s.inbox, h.v, h.pay);
      }
    } else {
      match h
      case Call(v, pay) => ClientCallFollows(p, s, v, pay);
      case _ => FollowsStill(p, s, ClientTurn(p, s, h));
    }
  }

  /** The numbered parts are the script both machines were written for. */
  lemma {:induction false} PartsAreScript(q: Params)
    ensures ClientUpTo(q, ClientPlace(q, CDone, true)) == RestC(q, CStart)
  {
    hide ClientUpTo, RestC;
    if q.resume {
      ResumedParts(q);
    } else {
      FullParts(q);
    }
  }

  /** One part passes from what is ahead to what is behind. */
  lemma {:induction false} Passes(q: Params, n: nat, ahead: seq<Want>, next: seq<Want>)
    requires ahead == ClientPart(q, n + 1) + next
    ensures ClientUpTo(q, n) + ahead == ClientUpTo(q, n + 1) + next
  {
    hide ClientPart;
  }

  lemma {:induction false} ServerLastInParts(q: Params, rest: seq<Want>)
    ensures var n := if q.resume then 3 else 12;
            ServerLast(q) + rest
            == ClientPart(q, n) + (ClientPart(q, n + 1) + (ClientPart(q, n + 2) + rest))
  {
  }

  lemma {:induction false} NothingYet(q: Params, rest: seq<Want>)
    ensures ClientUpTo(q, 0) + rest == rest
  {
    assert [] + rest == rest;
  }

  lemma {:induction false} ResumedLines(q: Params)
    requires q.resume
    ensures RestC(q, CStart) == ClientPart(q, 1) + RestC(q, CReadServerHello)
    ensures RestC(q, CReadServerHello) == ClientPart(q, 2) + RestC(q, CReadTicket)
    ensures RestC(q, CReadTicket) == ServerLast(q) + RestC(q, CSendFinished)
    ensures RestC(q, CSendFinished) == ClientPart(q, 6) + []
  {
    hide RestC, ClientLast, ServerLast, When;
    UnfoldC(q, CStart);
    UnfoldC(q, CReadServerHello);
    UnfoldC(q, CReadTicket);
    UnfoldC(q, CSendFinished);
    UnfoldC(q, CFinishFlight);
  }

  lemma {:induction false} ResumedParts(q: Params)
    requires q.resume
    ensures ClientUpTo(q, 6) == RestC(q, CStart)
  {
    hide RestC, ClientPart, ClientUpTo, ServerLast;
    ResumedLines(q);
    var last := RestC(q, CSendFinished);
    ServerLastInParts(q, last);
    var finished := ClientPart(q, 5) + last;
    NothingYet(q, RestC(q, CStart));
    Passes(q, 0, RestC(q, CStart), RestC(q, CReadServerHello));
    Passes(q, 1, RestC(q, CReadServerHello), RestC(q, CReadTicket));
    Passes(q, 2, RestC(q, CReadTicket), ClientPart(q, 4) + finished);
    Passes(q, 3, ClientPart(q, 4) + finished, finished);
    Passes(q, 4, finished, last);
    Passes(q, 5, last, []);
    assert ClientUpTo(q, 6) + [] == ClientUpTo(q, 6);
  }

  lemma {:induction false} FrontLines(q: Params)
    requires !q.resume
    ensures RestC(q, CStart) == ClientPart(q, 1) + RestC(q, CReadServerHello)
    ensures RestC(q, CReadServerHello) == ClientPart(q, 2) + RestC(q, CReadCertificate)
    ensures RestC(q, CReadCertificate) == ClientPart(q, 3) + RestC(q, CReadStatus)
    ensures RestC(q, CReadStatus) == ClientPart(q, 4) + RestC(q, CReadKeyExchange)
    ensures RestC(q, CReadKeyExchange) == ClientPart(q, 5) + RestC(q, CReadRequest)
    ensures RestC(q, CReadRequest) == ClientPart(q, 6) + RestC(q, CReadHelloDone)
    ensures RestC(q, CReadHelloDone) == ClientPart(q, 7) + RestC(q, CSendCertificate)
  {
    hide RestC, ClientLast, ServerLast, When;
    UnfoldC(q, CStart);
    UnfoldC(q, CReadServerHello);
    UnfoldC(q, CReadCertificate);
    UnfoldC(q, CReadStatus);
    UnfoldC(q, CVerifyCertificate);
    UnfoldC(q, CReadKeyExchange);
    UnfoldC(q, CReadRequest);
    UnfoldC(q, CReadHelloDone);
  }

  lemma {:induction false} BackLines(q: Params)
    requires !q.resume
    ensures RestC(q, CSendCertificate) == ClientPart(q, 8) + RestC(q, CSendKeyExchange)
    ensures RestC(q, CSendKeyExchange) == ClientPart(q, 9) + RestC(q, CSendVerify)
    ensures RestC(q, CSendVerify) == ClientPart(q, 10) + RestC(q, CSendFinished)
  {
    hide RestC, When;
    UnfoldC(q, CSendCertificate);
    UnfoldC(q, CSendKeyExchange);
    UnfoldC(q, CSendVerify);
  }

  lemma {:induction false} LastLines(q: Params)
    requires !q.resume
    ensures RestC(q, CSendFinished) == ClientPart(q, 11) + RestC(q, CReadTicket)
    ensures RestC(q, CReadTicket) == ServerLast(q) + []
  {
    hide RestC, ClientLast, ServerLast;
    UnfoldC(q, CSendFinished);
    UnfoldC(q, CFinishFlight);
    UnfoldC(q, CReadTicket);
    UnfoldC(q, CFinish);
  }

  lemma {:induction false} FullParts(q: Params)
    requires !q.resume
    ensures ClientUpTo(q, 14) == RestC(q, CStart)
  {
    hide RestC, ClientPart, ClientUpTo, ServerLast;
    FrontLines(q);
    BackLines(q);
    LastLines(q);
    ServerLastInParts(q, []);
    var finished := ClientPart(q, 14) + [];
    NothingYet(q, RestC(q, CStart));
    Passes(q, 0, RestC(q, CStart), RestC(q, CReadServerHello));
    Passes(q, 1, RestC(q, CReadServerHello), RestC(q, CReadCertificate));
    Passes(q, 2, RestC(q, CReadCertificate), RestC(q, CReadStatus));
    Passes(q, 3, RestC(q, CReadStatus), RestC(q, CReadKeyExchange));
    Passes(q, 4, RestC(q, CReadKeyExchange), RestC(q, CReadRequest));
    Passes(q, 5, RestC(q, CReadRequest), RestC(q, CReadHelloDone));
    Passes(q, 6, RestC(q, CReadHelloDone), RestC(q, CSendCertificate));
    Passes(q, 7, RestC(q, CSendCertificate), RestC(q, CSendKeyExchange));
    Passes(q, 8, RestC(q, CSendKeyExchange), RestC(q, CSendVerify));
    Passes(q, 9, RestC(q, CSendVerify), RestC(q, CSendFinished));
    Passes(q, 10, RestC(q, CSendFinished), RestC(q, CReadTicket));
    Passes(q, 11, RestC(q, CReadTicket), ClientPart(q, 13) + finished);
    Passes(q, 12, ClientPart(q, 13) + finished, finished);
    Passes(q, 13, finished, []);
    assert ClientUpTo(q, 14) + [] == ClientUpTo(q, 14);
  }

  lemma {:induction false} ClientRunFollows(p: Params, hs: seq<Happening>)
    ensures ClientFollows(p, ClientAlone(p, hs))
  {
    hide ClientTurn;
    if hs != [] {
      ClientRunFollows(p, hs[..|hs| - 1]);
      hide ClientFollows;
      ClientTurnFollows(p, ClientAlone(p, hs[..|hs| - 1]), hs[|hs| - 1]);
    }
  }

  /** What a client has heard and said: a beginning of a script of its own parameters, with options
      only where it allows them, and every Finished checked against its own transcript; and if it
      is done, a whole one. */
  ghost predicate ClientConforms(p: Params, s: Solo<ClientState>) {
    !s.end.wait.Failed? ==>
      var q := ServerUsed(p, s.log);
      && FitsAll(ClientUpTo(q, Place(p, s.end)), s.log) && FinishedChecked(s.log, Server)
      && (q.sendsStatus ==> p.statusExpected) && (SendsSke(q) ==> SendsSke(p)) && (q.certRequest ==> p.certAuth)
      && (s.end.state == CDone ==> FitsAll(RestC(q, CStart), s.log))
  }

  lemma {:induction false} FollowsConforms(p: Params, s: Solo<ClientState>)
    requires ClientFollows(p, s)
    ensures ClientConforms(p, s)
  {
    hide FitsAll, FinishedChecked, Heard, ClientUpTo, RestC, Said;
    if !s.end.wait.Failed? {
      PartsAreScript(ServerUsed(p, s.log));
    }
  }

  /** Against any peer, whatever it sends and whenever it is called: a client takes only what the
      script of its parameters has next, and is done only with a whole handshake behind it. */
  lemma {:induction false} ClientConformsToScript(p: Params, hs: seq<Happening>)
    ensures ClientConforms(p, ClientAlone(p, hs))
  {
    ClientRunFollows(p, hs);
    FollowsConforms(p, ClientAlone(p, hs));
  }
}
