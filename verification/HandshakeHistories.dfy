/** The histories of both machines in a run of one against the other: each is a history against
    some peer, so whatever holds against any peer holds there. */
module HandshakeHistories {
  import opened Wire
  import opened Handshake
  import opened HandshakeAlone
  import opened HandshakeConformance
  import opened HandshakeServerConformance

  /** What an event of the connection is to the client. */
  function ClientSees(p: Params, s: Solo<ClientState>, net: Net, e: Event): Solo<ClientState> {
    match e
    case RunClient(v, pay) => ClientTurn(p, s, Call(v, pay))
    case FlushClient(k) => ClientTurn(p, s, Drain(k))
    case FlushServer(k) =>
      if k > |net.server.flight| || net.server.wait != Flushing then s
      else ClientTurn(p, s, Arrive(net.server.flight[..k]))
    case RunServer(_, _) => s
  }

  function ServerSees(p: Params, s: Solo<ServerState>, net: Net, e: Event): Solo<ServerState> {
    match e
    case RunServer(v, pay) => ServerTurn(p, s, Call(v, pay))
    case FlushServer(k) => ServerTurn(p, s, Drain(k))
    case FlushClient(k) =>
      if k > |net.client.flight| || net.client.wait != Flushing then s
      else ServerTurn(p, s, Arrive(net.client.flight[..k]))
    case RunClient(_, _) => s
  }

  function ClientHistory(p: Params, s: Solo<ClientState>, net: Net, events: seq<Event>): Solo<ClientState>
    decreases |events|
  {
    if events == [] then s
    else ClientHistory(p, ClientSees(p, s, net, events[0]), Step(p, net, events[0]), events[1..])
  }

  function ServerHistory(p: Params, s: Solo<ServerState>, net: Net, events: seq<Event>): Solo<ServerState>
    decreases |events|
  {
    if events == [] then s
    else ServerHistory(p, ServerSees(p, s, net, events[0]), Step(p, net, events[0]), events[1..])
  }

  ghost predicate ClientGood(p: Params, s: Solo<ClientState>) {
    RefusalIsFinal(s) && ClientChecked(p, s) && ClientFollows(p, s)
  }

  ghost predicate ServerGood(p: Params, s: Solo<ServerState>) {
    RefusalIsFinal(s) && ServerChecked(p, s) && ServerFollows(p, s)
  }

  lemma {:induction false} ClientTurnGood(p: Params, s: Solo<ClientState>, h: Happening)
    requires ClientGood(p, s)
    ensures ClientGood(p, ClientTurn(p, s, h))
  {
    hide RefusalIsFinal, ClientChecked, ClientFollows, ClientTurn;
    ClientTurnRefuses(p, s, h);
    ClientTurnChecks(p, s, h);
    ClientTurnFollows(p, s, h);
  }

  lemma {:induction false} ServerTurnGood(p: Params, s: Solo<ServerState>, h: Happening)
    requires WFParams(p) && ServerGood(p, s)
    ensures ServerGood(p, ServerTurn(p, s, h))
  {
    hide RefusalIsFinal, ServerChecked, ServerFollows, ServerTurn;
    ServerTurnRefuses(p, s, h);
    ServerTurnChecks(p, s, h);
    ServerTurnFollows(p, s, h);
  }

  lemma {:induction false} ClientStays(p: Params, s: Solo<ClientState>, net: Net, e: Event)
    requires s.end == net.client && s.inbox == net.toClient
    ensures ClientSees(p, s, net, e).end == Step(p, net, e).client
    ensures ClientSees(p, s, net, e).inbox == Step(p, net, e).toClient
  {
    hide ClientStep, ServerStep, ClientAsks, By;
  }

  lemma {:induction false} ServerStays(p: Params, s: Solo<ServerState>, net: Net, e: Event)
    requires s.end == net.server && s.inbox == net.toServer
    ensures ServerSees(p, s, net, e).end == Step(p, net, e).server
    ensures ServerSees(p, s, net, e).inbox == Step(p, net, e).toServer
  {
    hide ClientStep, ServerStep, ServerAsks, By;
  }

  lemma {:induction false} ClientHistoryGood(p: Params, s: Solo<ClientState>, net: Net, events: seq<Event>)
    requires ClientGood(p, s) && s.end == net.client && s.inbox == net.toClient
    ensures var t := ClientHistory(p, s, net, events);
            ClientGood(p, t) && t.end == Run(p, net, events).client && t.inbox == Run(p, net, events).toClient
    decreases |events|
  {
    if events != [] {
      var e := events[0];
      ClientStays(p, s, net, e);
      match e {
        case RunClient(v, pay) => ClientTurnGood(p, s, Call(v, pay));
        case FlushClient(k) => ClientTurnGood(p, s, Drain(k));
        case FlushServer(k) =>
          if k <= |net.server.flight| && net.server.wait == Flushing {
            ClientTurnGood(p, s, Arrive(net.server.flight[..k]));
          }
        case RunServer(_, _) =>
      }
      hide ClientGood, Step, ClientTurn;
      ClientHistoryGood(p, ClientSees(p, s, net, e), Step(p, net, e), events[1..]);
    }
  }

  lemma {:induction false} ServerHistoryGood(p: Params, s: Solo<ServerState>, net: Net, events: seq<Event>)
    requires WFParams(p) && ServerGood(p, s) && s.end == net.server && s.inbox == net.toServer
    ensures var t := ServerHistory(p, s, net, events);
            ServerGood(p, t) && t.end == Run(p, net, events).server && t.inbox == Run(p, net, events).toServer
    decreases |events|
  {
    if events != [] {
      var e := events[0];
      ServerStays(p, s, net, e);
      match e {
        case RunServer(v, pay) => ServerTurnGood(p, s, Call(v, pay));
        case FlushServer(k) => ServerTurnGood(p, s, Drain(k));
        case FlushClient(k) =>
          if k <= |net.client.flight| && net.client.wait == Flushing {
            ServerTurnGood(p, s, Arrive(net.client.flight[..k]));
          }
        case RunClient(_, _) =>
      }
      hide ServerGood, Step, ServerTurn;
      ServerHistoryGood(p, ServerSees(p, s, net, e), Step(p, net, e), events[1..]);
    }
  }

  /** The histories of a run from the start. */
  function ClientOf(p: Params, events: seq<Event>): Solo<ClientState> {
    ClientHistory(p, Begun(CStart), Initial(), events)
  }

  function ServerOf(p: Params, events: seq<Event>): Solo<ServerState> {
    ServerHistory(p, Begun(SStart), Initial(), events)
  }

  /** Over every run of the two machines against each other: whichever side was refused, by any
      check it consulted, has failed where it asked and is never done; a side that is done was told
      to go on by every check its parameters call for; and each has a whole handshake of its own
      parameters behind it. */
  lemma {:induction false} BothAreChecked(p: Params, events: seq<Event>)
    requires WFParams(p)
    ensures var c, s := ClientOf(p, events), ServerOf(p, events);
            && c.end == Run(p, Initial(), events).client && s.end == Run(p, Initial(), events).server
            && ClientAnswered(p, c) && ServerAnswered(p, s) && ClientConforms(p, c) && ServerConforms(p, s)
  {
    ClientRunChecks(p, []);
    ClientRunFollows(p, []);
    ServerRunChecks(p, []);
    ServerRunFollows(p, []);
    assert ClientAlone(p, []) == Begun(CStart) && ServerAlone(p, []) == Begun(SStart);
    hide ClientHistory, ServerHistory, Run, ClientAnswered, ServerAnswered, ClientConforms, ServerConforms,
      RefusalIsFinal, ClientChecked, ServerChecked, ClientFollows, ServerFollows, ClientAlone, ServerAlone;
    ClientHistoryGood(p, Begun(CStart), Initial(), events);
    ServerHistoryGood(p, Begun(SStart), Initial(), events);
    ClientChecksAnswered(p, ClientOf(p, events));
    ServerChecksAnswered(p, ServerOf(p, events));
    FollowsConforms(p, ClientOf(p, events));
    FollowsConformsS(p, ServerOf(p, events));
  }
}
