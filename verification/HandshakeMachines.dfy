/** The handshake as the program runs it: one handshake object whose state, transcript and flight
    the steps update in place, and the loops that run steps until the handshake has to wait. */
module HandshakeMachines {
  import opened Wire
  import H = Handshake
  import R = HandshakeRuns
  import L = HandshakeHistories
  import A = HandshakeAlone

  class Handshake<S> {
    var state: S
    var wait: H.Wait
    var transcript: seq<H.Item>
    var flight: seq<H.Item>
    var added: nat
    var certRequest: bool
    var peerCert: bool
    ghost var n: nat

    ghost function View(): H.End<S>
      reads this
    {
      H.End(state, wait, transcript, flight, added, certRequest, peerCert, n)
    }

    constructor (start: S)
      ensures View() == H.End(start, H.Ready, [], [], 0, false, false, 0)
    {
      state, wait, transcript, flight, added, certRequest, peerCert, n := start, H.Ready, [], [], 0, false, false, 0;
    }

    /** add_message and add_change_cipher_spec: messages are hashed as they join the flight. */
    method Add(item: H.Item)
      modifies this
      ensures View() == H.Add(old(View()), item)
    {
      flight := flight + [item];
      added := added + 1;
      n := n + 1;
      if item.Message? {
        transcript := transcript + [item];
      }
    }

    method AddMessage(kind: H.MsgType, bytes: seq<byte>)
      modifies this
      ensures View() == H.AddIf(old(View()), true, kind, bytes)
    {
      Add(H.Message(kind, H.Opaque(bytes)));
    }

    /** ssl_send_finished. */
    method SendFinished(fromServer: bool)
      modifies this
      ensures View() == H.AddFinished(old(View()), fromServer)
    {
      Add(H.Message(H.Finished, H.Mac(fromServer, transcript)));
    }

    /** ssl_hash_message and next_message. */
    method Consume(item: H.Item)
      modifies this
      ensures View() == H.Take(old(View()), item)
    {
      if item.Message? {
        transcript := transcript + [item];
      }
      n := n + 1;
    }

    /** Reads one message of the given type. */
    method Read(inbox: seq<H.Item>, kind: H.MsgType, v: H.Verdict, next: S) returns (took: bool)
      modifies this
      ensures H.Outcome(View(), took) == H.Expect(old(View()), inbox, kind, v, next)
    {
      took := false;
      if inbox == [] {
        return;
      }
      if !inbox[0].Message? || inbox[0].kind != kind {
        wait := H.Failed(H.Unexpected);
        return;
      }
      if v == H.Refuse {
        wait := H.Failed(H.Refused);
      } else if v == H.Proceed {
        Consume(inbox[0]);
        state := next;
        took := true;
      }
    }

    /** ssl_get_finished. */
    method ReadFinished(inbox: seq<H.Item>, fromServer: bool, next: S) returns (took: bool)
      modifies this
      ensures H.Outcome(View(), took) == H.ExpectFinished(old(View()), inbox, fromServer, next)
    {
      took := false;
      if inbox == [] {
        return;
      }
      if !inbox[0].Message? || inbox[0].kind != H.Finished {
        wait := H.Failed(H.Unexpected);
        return;
      }
      if inbox[0].body != H.Mac(fromServer, transcript) {
        wait := H.Failed(H.BadFinished);
        return;
      }
      Consume(inbox[0]);
      state := next;
      took := true;
    }

    /** A callback in front of a step: true if the step may go on. */
    method Allowed(v: H.Verdict) returns (go: bool)
      modifies this`wait
      ensures go == (v == H.Proceed)
      ensures View() == if v == H.Refuse then old(View()).(wait := H.Failed(H.Refused)) else old(View())
    {
      if v == H.Refuse {
        wait := H.Failed(H.Refused);
      }
      go := v == H.Proceed;
    }

    /** Whether the next thing received is a message; anything else is an error. */
    method Peek(inbox: seq<H.Item>) returns (ready: bool)
      modifies this`wait
      ensures ready == (inbox != [] && inbox[0].Message?)
      ensures View() == if inbox != [] && !inbox[0].Message? then old(View()).(wait := H.Failed(H.Unexpected))
          else old(View())
    {
      ready := inbox != [] && inbox[0].Message?;
      if inbox != [] && !inbox[0].Message? {
        wait := H.Failed(H.Unexpected);
      }
    }

    /** The wait for a ChangeCipherSpec record in ssl_run_handshake. */
    method ReadChangeCipherSpec(inbox: seq<H.Item>) returns (took: bool)
      modifies this
      ensures H.Outcome(View(), took) == H.OpenCcs(old(View()), inbox)
    {
      took := false;
      if inbox == [] {
        return;
      }
      if inbox[0].Message? {
        wait := H.Failed(H.Unexpected);
        return;
      }
      Consume(inbox[0]);
      wait := H.Ready;
      took := true;
    }

    /** flush_flight, as far as the transport takes it. */
    method Flush(k: nat) returns (written: seq<H.Item>)
      requires k <= |flight| && wait == H.Flushing
      modifies this
      ensures View() == H.Flushed(old(View()), k) && written == old(flight)[..k]
    {
      written := flight[..k];
      if k == |flight| {
        flight, wait, added := [], H.Ready, 0;
      } else {
        flight := flight[k..];
      }
    }
  }

  /** The first half of the client's steps: up to the end of the server's first flight. */
  method ClientListens(p: H.Params, hs: Handshake<H.ClientState>, inbox: seq<H.Item>, v: H.Verdict,
      pay: H.MsgType -> seq<byte>) returns (took: bool)
    requires hs.state.CStart? || hs.state.CEarlyData? || hs.state.CReadHelloVerify? || hs.state.CReadServerHello?
        || hs.state.CReadCertificate?
             || hs.state.CReadStatus? || hs.state.CVerifyCertificate? || hs.state.CReadKeyExchange?
                 || hs.state.CReadRequest? || hs.state.CReadHelloDone?
    modifies hs
    ensures H.Outcome(hs.View(), took) == H.ClientDo(p, old(hs.View()), inbox, v, pay)
  {
    hide H.Expect, H.AddIf;
    took := false;
    match hs.state
    case CStart =>
      hs.AddMessage(H.ClientHello, pay(H.ClientHello));
      hs.state, hs.wait := H.CEarlyData, H.Flushing;
    case CEarlyData =>
      hs.state := if p.dtls then H.CReadHelloVerify else H.CReadServerHello;
    case CReadHelloVerify =>
      var ready := hs.Peek(inbox);
      if ready {
        hs.state := H.CReadServerHello;
      }
    case CReadServerHello =>
      took := hs.Read(inbox, H.ServerHello, v, if p.resume then H.CReadTicket else H.CReadCertificate);
    case CReadCertificate =>
      if !p.certAuth {
        hs.state := H.CReadStatus;
      } else {
        took := hs.Read(inbox, H.Certificate, v, H.CReadStatus);
      }
    case CReadStatus =>
      if !p.statusExpected {
        hs.state := H.CVerifyCertificate;
        return;
      }
      var ready := hs.Peek(inbox);
      if ready {
        if inbox[0].kind != H.CertificateStatus {
          hs.state := H.CVerifyCertificate;
        } else {
          took := hs.Read(inbox, H.CertificateStatus, v, H.CVerifyCertificate);
        }
      }
    case CVerifyCertificate =>
      if p.certAuth {
        var go := hs.Allowed(v);
        if !go {
          return;
        }
      }
      hs.state := H.CReadKeyExchange;
    case CReadKeyExchange =>
      var ready := hs.Peek(inbox);
      if ready {
        if inbox[0].kind != H.ServerKeyExchange {
          if p.requiresSke {
            hs.wait := H.Failed(H.Unexpected);
          } else {
            hs.state := H.CReadRequest;
          }
        } else if !p.requiresSke && !p.pskHint {
          hs.wait := H.Failed(H.Unexpected);
        } else {
          took := hs.Read(inbox, H.ServerKeyExchange, v, H.CReadRequest);
        }
      }
    case CReadRequest =>
      if !p.certAuth {
        hs.state := H.CReadHelloDone;
        return;
      }
      var ready := hs.Peek(inbox);
      if ready {
        if inbox[0].kind == H.ServerHelloDone {
          hs.state := H.CReadHelloDone;
        } else {
          took := hs.Read(inbox, H.CertificateRequest, v, H.CReadHelloDone);
          if took {
            hs.certRequest := true;
          }
        }
      }
    case CReadHelloDone =>
      took := hs.Read(inbox, H.ServerHelloDone, v, H.CSendCertificate);
  }

  /** The client's own flight. */
  method ClientAnswers(p: H.Params, hs: Handshake<H.ClientState>, inbox: seq<H.Item>, v: H.Verdict,
      pay: H.MsgType -> seq<byte>)
    requires hs.state.CSendCertificate? || hs.state.CSendKeyExchange? || hs.state.CSendVerify?
    modifies hs
    ensures H.Outcome(hs.View(), false) == H.ClientDo(p, old(hs.View()), inbox, v, pay)
  {
    hide H.AddFinished, H.Add;
    match hs.state
    case CSendCertificate =>
      if hs.certRequest {
        var go := hs.Allowed(v);
        if !go {
          return;
        }
        hs.Add(H.Message(H.Certificate, H.Chain(if p.clientHasCert then 1 else 0)));
      }
      hs.state := H.CSendKeyExchange;
    case CSendKeyExchange =>
      var go := hs.Allowed(v);
      if go {
        hs.AddMessage(H.ClientKeyExchange, pay(H.ClientKeyExchange));
        hs.state := H.CSendVerify;
      }
    case CSendVerify =>
      if hs.certRequest && p.clientHasCert {
        var go := hs.Allowed(v);
        if !go {
          return;
        }
        hs.AddMessage(H.CertificateVerify, pay(H.CertificateVerify));
      }
      hs.state := H.CSendFinished;
  }

  /** do_send_client_finished: Channel ID is asked for first, before anything is added. */
  method ClientSendsFinished(p: H.Params, hs: Handshake<H.ClientState>, inbox: seq<H.Item>, v: H.Verdict,
      pay: H.MsgType -> seq<byte>)
    requires hs.state.CSendFinished?
    modifies hs
    ensures H.Outcome(hs.View(), false) == H.ClientDo(p, old(hs.View()), inbox, v, pay)
  {
    hide H.AddFinished, H.Add;
    if p.channelId {
      var go := hs.Allowed(v);
      if !go {
        return;
      }
    }
    hs.Add(H.ChangeCipherSpec);
    if p.nextProto {
      hs.AddMessage(H.NextProto, pay(H.NextProto));
    }
    if p.channelId {
      hs.AddMessage(H.ChannelId, pay(H.ChannelId));
    }
    hs.SendFinished(false);
    hs.state, hs.wait := H.CFinishFlight, H.Flushing;
  }

  /** The server's last flight and the end. */
  method ClientCloses(p: H.Params, hs: Handshake<H.ClientState>, inbox: seq<H.Item>, v: H.Verdict,
      pay: H.MsgType -> seq<byte>) returns (took: bool)
    requires hs.state.CFinishFlight? || hs.state.CReadTicket? || hs.state.CProcessCcs? || hs.state.CReadFinished?
        || hs.state.CFinish? || hs.state.CDone?
    modifies hs
    ensures H.Outcome(hs.View(), took) == H.ClientDo(p, old(hs.View()), inbox, v, pay)
  {
    hide H.Expect, H.ExpectFinished;
    took := false;
    match hs.state
    case CFinishFlight =>
      hs.state := if p.resume then H.CFinish else H.CReadTicket;
    case CReadTicket =>
      if !p.ticket {
        hs.state, hs.wait := H.CProcessCcs, H.AwaitCcs;
      } else {
        took := hs.Read(inbox, H.NewSessionTicket, v, H.CProcessCcs);
        if took {
          hs.wait := H.AwaitCcs;
        }
      }
    case CProcessCcs =>
      hs.state := H.CReadFinished;
    case CReadFinished =>
      took := hs.ReadFinished(inbox, true, if p.resume then H.CSendFinished else H.CFinish);
    case CFinish =>
      hs.state := H.CDone;
    case CDone =>
  }

  /** The server up to the end of its first flight. */
  method ServerAnswers(p: H.Params, hs: Handshake<H.ServerState>, inbox: seq<H.Item>, v: H.Verdict,
      pay: H.MsgType -> seq<byte>) returns (took: bool)
    requires hs.state.SStart? || hs.state.SReadClientHello? || hs.state.SSelectCertificate?
        || hs.state.SSelectParameters? || hs.state.SSendHello?
             || hs.state.SSendCertificate? || hs.state.SSendKeyExchange? || hs.state.SSendHelloDone?
                 || hs.state.SSendFinished?
    modifies hs
    ensures H.Outcome(hs.View(), took) == H.ServerDo(p, old(hs.View()), inbox, v, pay)
  {
    hide H.AddFinished, H.Add, H.Take;
    took := false;
    match hs.state
    case SStart =>
      hs.state := H.SReadClientHello;
    case SReadClientHello =>
      if inbox == [] {
        return;
      }
      if !inbox[0].Message? || inbox[0].kind != H.ClientHello {
        hs.wait := H.Failed(H.Unexpected);
        return;
      }
      var go := hs.Allowed(v);
      if go {
        hs.state := H.SSelectCertificate;
      }
    case SSelectCertificate =>
      if inbox != [] {
        var go := hs.Allowed(v);
        if go {
          hs.state := H.SSelectParameters;
        }
      }
    case SSelectParameters =>
      if inbox != [] {
        var go := hs.Allowed(v);
        if go {
          hs.Consume(inbox[0]);
          hs.state, hs.certRequest := H.SSendHello, p.certRequest && !p.resume;
          took := true;
        }
      }
    case SSendHello =>
      hs.AddMessage(H.ServerHello, pay(H.ServerHello));
      hs.state := if p.resume then H.SSendFinished else H.SSendCertificate;
    case SSendCertificate =>
      if v == H.Refuse {
        hs.wait := H.Failed(H.Refused);
        return;
      }
      if p.certAuth {
        hs.AddMessage(H.Certificate, pay(H.Certificate));
        if p.sendsStatus {
          hs.AddMessage(H.CertificateStatus, pay(H.CertificateStatus));
        }
      }
      hs.state := H.SSendKeyExchange;
    case SSendKeyExchange =>
      if H.SendsSke(p) {
        var go := hs.Allowed(v);
        if !go {
          return;
        }
        hs.AddMessage(H.ServerKeyExchange, pay(H.ServerKeyExchange));
      }
      hs.state := H.SSendHelloDone;
    case SSendHelloDone =>
      if hs.certRequest {
        hs.AddMessage(H.CertificateRequest, pay(H.CertificateRequest));
      }
      hs.AddMessage(H.ServerHelloDone, pay(H.ServerHelloDone));
      hs.state, hs.wait := H.SReadCertificate, H.Flushing;
    case SSendFinished =>
      if p.ticket {
        hs.AddMessage(H.NewSessionTicket, pay(H.NewSessionTicket));
      }
      hs.Add(H.ChangeCipherSpec);
      hs.SendFinished(true);
      hs.state, hs.wait := if p.resume then H.SReadCcs else H.SFinish, H.Flushing;
  }

  /** The server reading the client's answer. */
  method ServerReadsAnswer(p: H.Params, hs: Handshake<H.ServerState>, inbox: seq<H.Item>, v: H.Verdict,
      pay: H.MsgType -> seq<byte>) returns (took: bool)
    requires hs.state.SReadCertificate? || hs.state.SVerifyCertificate? || hs.state.SReadKeyExchange?
        || hs.state.SReadVerify?
    modifies hs
    ensures H.Outcome(hs.View(), took) == H.ServerDo(p, old(hs.View()), inbox, v, pay)
  {
    took := false;
    match hs.state
    case SReadCertificate =>
      if !hs.certRequest {
        hs.state := H.SVerifyCertificate;
      } else {
        took := hs.Read(inbox, H.Certificate, v, H.SVerifyCertificate);
        if took {
          hs.peerCert := inbox[0].body.Chain? && inbox[0].body.certificates > 0;
        }
      }
    case SVerifyCertificate =>
      if hs.peerCert {
        var go := hs.Allowed(v);
        if !go {
          return;
        }
      }
      hs.state := H.SReadKeyExchange;
    case SReadKeyExchange =>
      took := hs.Read(inbox, H.ClientKeyExchange, v, H.SReadVerify);
    case SReadVerify =>
      if !hs.peerCert {
        hs.state := H.SReadCcs;
      } else {
        took := hs.Read(inbox, H.CertificateVerify, v, H.SReadCcs);
      }
  }

  /** The server reading the client's last flight, and the end. */
  method ServerListens(p: H.Params, hs: Handshake<H.ServerState>, inbox: seq<H.Item>, v: H.Verdict,
      pay: H.MsgType -> seq<byte>) returns (took: bool)
    requires hs.state.SReadCcs? || hs.state.SProcessCcs? || hs.state.SReadNextProto? || hs.state.SReadChannelId?
        || hs.state.SReadFinished? || hs.state.SFinish? || hs.state.SDone?
    modifies hs
    ensures H.Outcome(hs.View(), took) == H.ServerDo(p, old(hs.View()), inbox, v, pay)
  {
    hide H.ExpectFinished;
    took := false;
    match hs.state
    case SReadCcs =>
      hs.state, hs.wait := H.SProcessCcs, H.AwaitCcs;
    case SProcessCcs =>
      hs.state := H.SReadNextProto;
    case SReadNextProto =>
      if !p.nextProto {
        hs.state := H.SReadChannelId;
      } else {
        took := hs.Read(inbox, H.NextProto, v, H.SReadChannelId);
      }
    case SReadChannelId =>
      if !p.channelId {
        hs.state := H.SReadFinished;
      } else {
        took := hs.Read(inbox, H.ChannelId, v, H.SReadFinished);
      }
    case SReadFinished =>
      took := hs.ReadFinished(inbox, false, if p.resume then H.SFinish else H.SSendFinished);
    case SFinish =>
      hs.state := H.SDone;
    case SDone =>
  }

  // ---- the loops ----

  function Tail(inbox: seq<H.Item>, took: bool): seq<H.Item> {
    if took && inbox != [] then inbox[1..] else inbox
  }

  /** Steps until the answers run out or a step has to wait. */
  function ClientLoop(p: H.Params, e: H.End<H.ClientState>, inbox: seq<H.Item>, answers: seq<H.Verdict>,
      pay: H.MsgType -> seq<byte>)
      : (H.End<H.ClientState>, seq<H.Item>)
    decreases |answers|
  {
    if answers == [] || e.state == H.CDone || e.wait == H.Flushing || e.wait.Failed? then (e, inbox)
    else
      var o := H.ClientStep(p, e, inbox, answers[0], pay);
      ClientLoop(p, o.end, Tail(inbox, o.took), answers[1..], pay)
  }

  /** ssl_run_handshake over ssl_client_handshake. */
  method RunClient(p: H.Params, hs: Handshake<H.ClientState>, inbox: seq<H.Item>, answers: seq<H.Verdict>,
      pay: H.MsgType -> seq<byte>)
      returns (rest: seq<H.Item>)
    modifies hs
    ensures (hs.View(), rest) == ClientLoop(p, old(hs.View()), inbox, answers, pay)
  {
    hide H.ClientDo, H.OpenCcs;
    rest := inbox;
    ghost var goal := ClientLoop(p, hs.View(), inbox, answers, pay);
    var i := 0;
    assert answers[0..] == answers;
    while i < |answers| && hs.state != H.CDone && hs.wait != H.Flushing && !hs.wait.Failed?
      invariant 0 <= i <= |answers|
      invariant goal == ClientLoop(p, hs.View(), rest, answers[i..], pay)
    {
      var took: bool;
      assert answers[i..][1..] == answers[i + 1..];
      if hs.wait == H.AwaitCcs {
        took := hs.ReadChangeCipherSpec(rest);
      } else if hs.state.CStart? || hs.state.CEarlyData? || hs.state.CReadHelloVerify? || hs.state.CReadServerHello?
          || hs.state.CReadCertificate?
             || hs.state.CReadStatus? || hs.state.CVerifyCertificate? || hs.state.CReadKeyExchange?
                 || hs.state.CReadRequest? || hs.state.CReadHelloDone? {
        took := ClientListens(p, hs, rest, answers[i], pay);
      } else if hs.state.CSendCertificate? || hs.state.CSendKeyExchange? || hs.state.CSendVerify? {
        ClientAnswers(p, hs, rest, answers[i], pay);
        took := false;
      } else if hs.state.CSendFinished? {
        ClientSendsFinished(p, hs, rest, answers[i], pay);
        took := false;
      } else {
        took := ClientCloses(p, hs, rest, answers[i], pay);
      }
      rest := Tail(rest, took);
      i := i + 1;
    }
    assert answers[i..] == [] || i < |answers|;
  }

  function ServerLoop(p: H.Params, e: H.End<H.ServerState>, inbox: seq<H.Item>, answers: seq<H.Verdict>,
      pay: H.MsgType -> seq<byte>)
      : (H.End<H.ServerState>, seq<H.Item>)
    decreases |answers|
  {
    if answers == [] || e.state == H.SDone || e.wait == H.Flushing || e.wait.Failed? then (e, inbox)
    else
      var o := H.ServerStep(p, e, inbox, answers[0], pay);
      ServerLoop(p, o.end, Tail(inbox, o.took), answers[1..], pay)
  }

  /** ssl_run_handshake over ssl_server_handshake. */
  method RunServer(p: H.Params, hs: Handshake<H.ServerState>, inbox: seq<H.Item>, answers: seq<H.Verdict>,
      pay: H.MsgType -> seq<byte>)
      returns (rest: seq<H.Item>)
    modifies hs
    ensures (hs.View(), rest) == ServerLoop(p, old(hs.View()), inbox, answers, pay)
  {
    hide H.ServerDo, H.OpenCcs;
    rest := inbox;
    ghost var goal := ServerLoop(p, hs.View(), inbox, answers, pay);
    var i := 0;
    assert answers[0..] == answers;
    while i < |answers| && hs.state != H.SDone && hs.wait != H.Flushing && !hs.wait.Failed?
      invariant 0 <= i <= |answers|
      invariant goal == ServerLoop(p, hs.View(), rest, answers[i..], pay)
    {
      var took: bool;
      assert answers[i..][1..] == answers[i + 1..];
      if hs.wait == H.AwaitCcs {
        took := hs.ReadChangeCipherSpec(rest);
      } else if hs.state.SStart? || hs.state.SReadClientHello? || hs.state.SSelectCertificate?
          || hs.state.SSelectParameters? || hs.state.SSendHello?
             || hs.state.SSendCertificate? || hs.state.SSendKeyExchange? || hs.state.SSendHelloDone?
                 || hs.state.SSendFinished? {
        took := ServerAnswers(p, hs, rest, answers[i], pay);
      } else if hs.state.SReadCertificate? || hs.state.SVerifyCertificate? || hs.state.SReadKeyExchange?
          || hs.state.SReadVerify? {
        took := ServerReadsAnswer(p, hs, rest, answers[i], pay);
      } else {
        took := ServerListens(p, hs, rest, answers[i], pay);
      }
      rest := Tail(rest, took);
      i := i + 1;
    }
    assert answers[i..] == [] || i < |answers|;
  }

  // ---- both ends ----

  /** What the world does next: one side is called with the answers its callbacks will give, or
      the transport takes some items of a flight. */
  datatype Turn =
    | ClientTurn(answers: seq<H.Verdict>, pay: H.MsgType -> seq<byte>)
    | ServerTurn(answers: seq<H.Verdict>, pay: H.MsgType -> seq<byte>)
    | ClientFlush(k: nat)
    | ServerFlush(k: nat)

  /** The events of a turn: one call of a step for each answer that was used, or one flush. */
  ghost predicate TurnIs(turn: Turn, events: seq<H.Event>) {
    match turn
    case ClientTurn(answers, pay) =>
      |events| <= |answers| && forall i :: 0 <= i < |events| ==> events[i] == H.RunClient(answers[i], pay)
    case ServerTurn(answers, pay) =>
      |events| <= |answers| && forall i :: 0 <= i < |events| ==> events[i] == H.RunServer(answers[i], pay)
    case ClientFlush(k) => events == [H.FlushClient(k)]
    case ServerFlush(k) => events == [H.FlushServer(k)]
  }

  /** The events are those of the turns of a schedule, one turn after the other. */
  ghost predicate Played(schedule: seq<Turn>, events: seq<H.Event>) {
    if schedule == [] then events == []
    else
      exists n :: 0 <= n <= |events| && TurnIs(schedule[|schedule| - 1], events[n..])
        && Played(schedule[..|schedule| - 1], events[..n])
  }

  lemma {:induction false} PlaysOn(schedule: seq<Turn>, turn: Turn, events: seq<H.Event>, more: seq<H.Event>)
    requires Played(schedule, events) && TurnIs(turn, more)
    ensures Played(schedule + [turn], events + more)
  {
    hide TurnIs;
    var longer, all := schedule + [turn], events + more;
    assert longer[..|longer| - 1] == schedule && all[|events|..] == more && all[..|events|] == events;
  }

  lemma {:induction false} RunAppends(p: H.Params, s: H.Net, first: seq<H.Event>, second: seq<H.Event>)
    ensures H.Run(p, s, first + second) == H.Run(p, H.Run(p, s, first), second)
    decreases |first|
  {
    hide H.Step;
    if first == [] {
      assert first + second == second;
    } else {
      assert (first + second)[1..] == first[1..] + second;
      RunAppends(p, H.Step(p, s, first[0]), first[1..], second);
    }
  }

  lemma {:induction false} OneEvent(p: H.Params, s: H.Net, e: H.Event)
    ensures H.Run(p, s, [e]) == H.Step(p, s, e)
  {
    hide H.Step;
    assert [e][1..] == [];
  }

  /** A call of the loop is a run of single steps of the connection. */
  lemma {:induction false} ClientLoopIsRun(p: H.Params, s: H.Net, answers: seq<H.Verdict>,
      pay: H.MsgType -> seq<byte>) returns (events: seq<H.Event>)
    ensures var (e, rest) := ClientLoop(p, s.client, s.toClient, answers, pay);
            var t := H.Run(p, s, events);
            t.client == e && t.toClient == rest && t.server == s.server && t.toServer == s.toServer
    ensures TurnIs(ClientTurn(answers, pay), events)
    decreases |answers|
  {
    hide H.ClientStep;
    events := [];
    if !(answers == [] || s.client.state == H.CDone || s.client.wait == H.Flushing || s.client.wait.Failed?) {
      var e := H.RunClient(answers[0], pay);
      var t := H.Step(p, s, e);
      var more := ClientLoopIsRun(p, t, answers[1..], pay);
      events := [e] + more;
      assert events[1..] == more;
      assert forall i :: 0 <= i < |more| ==> more[i] == H.RunClient(answers[1..][i], pay);
    }
  }

  lemma {:induction false} ServerLoopIsRun(p: H.Params, s: H.Net, answers: seq<H.Verdict>,
      pay: H.MsgType -> seq<byte>) returns (events: seq<H.Event>)
    ensures var (e, rest) := ServerLoop(p, s.server, s.toServer, answers, pay);
            var t := H.Run(p, s, events);
            t.server == e && t.toServer == rest && t.client == s.client && t.toClient == s.toClient
    ensures TurnIs(ServerTurn(answers, pay), events)
    decreases |answers|
  {
    hide H.ServerStep;
    events := [];
    if !(answers == [] || s.server.state == H.SDone || s.server.wait == H.Flushing || s.server.wait.Failed?) {
      var e := H.RunServer(answers[0], pay);
      var t := H.Step(p, s, e);
      var more := ServerLoopIsRun(p, t, answers[1..], pay);
      events := [e] + more;
      assert events[1..] == more;
      assert forall i :: 0 <= i < |more| ==> more[i] == H.RunServer(answers[1..][i], pay);
    }
  }

  /** The two objects and the two queues between them are in a state of this run. */
  ghost predicate InRun(p: H.Params, client: Handshake<H.ClientState>, server: Handshake<H.ServerState>,
                        toClient: seq<H.Item>, toServer: seq<H.Item>, events: seq<H.Event>)
    reads client, server
  {
    var s := H.Run(p, H.Initial(), events);
    s.client == client.View() && s.server == server.View() && s.toClient == toClient && s.toServer == toServer
  }

  /** What a turn makes of the two ends. */
  function Turned(p: H.Params, c: H.End<H.ClientState>, s: H.End<H.ServerState>, turn: Turn, toClient: seq<H.Item>,
      toServer: seq<H.Item>)
      : (H.End<H.ClientState>, H.End<H.ServerState>)
  {
    match turn
    case ClientTurn(answers, pay) => (ClientLoop(p, c, toClient, answers, pay).0, s)
    case ServerTurn(answers, pay) => (c, ServerLoop(p, s, toServer, answers, pay).0)
    case ClientFlush(k) => (if k <= |c.flight| then H.Flushed(c, k) else c, s)
    case ServerFlush(k) => (c, if k <= |s.flight| then H.Flushed(s, k) else s)
  }

  /** One turn of the two objects. */
  method TakeTurn(p: H.Params, client: Handshake<H.ClientState>, server: Handshake<H.ServerState>, turn: Turn,
                  toClient: seq<H.Item>, toServer: seq<H.Item>, ghost events: seq<H.Event>)
    returns (toClient': seq<H.Item>, toServer': seq<H.Item>, ghost events': seq<H.Event>)
    requires InRun(p, client, server, toClient, toServer, events)
    modifies client, server
    ensures InRun(p, client, server, toClient', toServer', events')
    ensures events <= events' && TurnIs(turn, events'[|events|..])
    ensures (client.View(), server.View())
        == Turned(p, old(client.View()), old(server.View()), turn, toClient, toServer)
  {
    hide H.Run, H.Step, ClientLoop, ServerLoop;
    ghost var s := H.Run(p, H.Initial(), events);
    ghost var more: seq<H.Event> := [];
    toClient', toServer' := toClient, toServer;
    match turn
    case ClientTurn(answers, pay) =>
      more := ClientLoopIsRun(p, s, answers, pay);
      toClient' := RunClient(p, client, toClient, answers, pay);
      RunAppends(p, H.Initial(), events, more);
      events' := events + more;
      assert events'[|events|..] == more;
    case ServerTurn(answers, pay) =>
      more := ServerLoopIsRun(p, s, answers, pay);
      toServer' := RunServer(p, server, toServer, answers, pay);
      RunAppends(p, H.Initial(), events, more);
      events' := events + more;
      assert events'[|events|..] == more;
    case ClientFlush(k) =>
      FlushEvents(p, s, k);
      if k <= |client.flight| && client.wait == H.Flushing {
        var written := client.Flush(k);
        toServer' := toServer + written;
      }
      RunAppends(p, H.Initial(), events, [H.FlushClient(k)]);
      events' := events + [H.FlushClient(k)];
      assert events'[|events|..] == [H.FlushClient(k)];
    case ServerFlush(k) =>
      FlushEvents(p, s, k);
      if k <= |server.flight| && server.wait == H.Flushing {
        var written := server.Flush(k);
        toClient' := toClient + written;
      }
      RunAppends(p, H.Initial(), events, [H.FlushServer(k)]);
      events' := events + [H.FlushServer(k)];
      assert events'[|events|..] == [H.FlushServer(k)];
  }

  lemma {:induction false} FlushEvents(p: H.Params, s: H.Net, k: nat)
    ensures var t := H.Run(p, s, [H.FlushClient(k)]);
            && t.server == s.server && t.toClient == s.toClient
            && if k <= |s.client.flight| && s.client.wait == H.Flushing
               then t.client == H.Flushed(s.client, k) && t.toServer == s.toServer + s.client.flight[..k]
               else t.client == s.client && t.toServer == s.toServer
    ensures var t := H.Run(p, s, [H.FlushServer(k)]);
            && t.client == s.client && t.toServer == s.toServer
            && if k <= |s.server.flight| && s.server.wait == H.Flushing
               then t.server == H.Flushed(s.server, k) && t.toClient == s.toClient + s.server.flight[..k]
               else t.server == s.server && t.toClient == s.toClient
  {
    OneEvent(p, s, H.FlushClient(k));
    OneEvent(p, s, H.FlushServer(k));
    hide H.Run;
  }

  /** Two handshake objects and the queues between them, under any schedule, any answers of the
      callbacks and any way the flights trickle through: neither object ever meets an unexpected
      message or a Finished it cannot verify, no flight has more than seven entries, one
      transcript is a prefix of the other, and when both are done they are equal. In the history of
      questions and answers, an object that was refused has failed where it asked and is never
      done, and one that is done was told to go on by every check its parameters call for. */
  method Converse(p: H.Params, schedule: seq<Turn>)
    returns (client: Handshake<H.ClientState>, server: Handshake<H.ServerState>, ghost events: seq<H.Event>)
    requires H.WFParams(p)
    ensures fresh(client) && fresh(server) && Played(schedule, events)
    ensures var c, s := L.ClientOf(p, events), L.ServerOf(p, events);
            && c.end == client.View() && s.end == server.View()
            && A.ClientAnswered(p, c) && A.ServerAnswered(p, s)
    ensures client.wait != H.Failed(H.Unexpected) && client.wait != H.Failed(H.BadFinished)
    ensures server.wait != H.Failed(H.Unexpected) && server.wait != H.Failed(H.BadFinished)
    ensures client.added <= 7 && server.added <= 7
    ensures client.transcript <= server.transcript || server.transcript <= client.transcript
    ensures client.state == H.CDone && server.state == H.SDone && !client.wait.Failed? && !server.wait.Failed? ==>
              client.transcript == server.transcript
  {
    hide H.Run, TurnIs, Played, L.ClientOf, L.ServerOf, A.ClientAnswered, A.ServerAnswered;
    NothingPlayed();
    client := new Handshake(H.CStart);
    server := new Handshake(H.SStart);
    var toClient: seq<H.Item>, toServer: seq<H.Item> := [], [];
    events := [];
    NoEvents(p);
    for i := 0 to |schedule|
      invariant fresh(client) && fresh(server) && Played(schedule[..i], events)
      invariant InRun(p, client, server, toClient, toServer, events)
    {
      ghost var before := events;
      toClient, toServer, events := TakeTurn(p, client, server, schedule[i], toClient, toServer, events);
      assert events == before + events[|before|..] && schedule[..i + 1] == schedule[..i] + [schedule[i]];
      PlaysOn(schedule[..i], schedule[i], before, events[|before|..]);
    }
    assert schedule[..|schedule|] == schedule;
    L.BothAreChecked(p, events);
    R.NeverSurprised(p, events);
    TranscriptsInRun(p, events);
  }

  lemma {:induction false} NothingPlayed()
    ensures Played([], [])
  {
  }

  lemma {:induction false} NoEvents(p: H.Params)
    ensures H.Run(p, H.Initial(), []) == H.Initial()
  {
  }

  lemma {:induction false} TranscriptsInRun(p: H.Params, events: seq<H.Event>)
    requires H.WFParams(p)
    ensures var s := H.Run(p, H.Initial(), events);
            && (s.client.transcript <= s.server.transcript || s.server.transcript <= s.client.transcript)
            && (s.client.state == H.CDone && s.server.state == H.SDone && !s.client.wait.Failed?
                && !s.server.wait.Failed? ==>
                  s.client.transcript == s.server.transcript)
  {
    hide H.Run;
    R.TranscriptsAgree(p, events);
    var s := H.Run(p, H.Initial(), events);
    if s.client.state == H.CDone && s.server.state == H.SDone && !s.client.wait.Failed? && !s.server.wait.Failed? {
      R.DoneMeansAgreed(p, events);
    }
  }
}
