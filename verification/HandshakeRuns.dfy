/** Runs of the two handshake machines against each other. */
module HandshakeRuns {
  import opened Wire
  import opened Handshake
  import opened HandshakeAgreement
  import opened HandshakeServing

  /** The part of an endpoint that the channel is about. */
  datatype Tip = Tip(n: nat, transcript: seq<Item>, flight: seq<Item>)

  function TipOf<T>(e: End<T>): Tip {
    Tip(e.n, e.transcript, e.flight)
  }

  function Items(entries: seq<Entry>): (r: seq<Item>)
    ensures |r| == |entries|
    ensures forall i :: 0 <= i < |r| ==> r[i] == entries[i].item
  {
    seq(|entries|, i requires 0 <= i < |entries| => entries[i].item)
  }

  /** If `a` is ahead, everything since `b`'s place is `a`'s, and is on its way or in `a`'s flight;
      if it is behind, it has nothing under way. */
  ghost predicate Half(produced: seq<Entry>, side: Side, a: Tip, b: Tip, toB: seq<Item>) {
    if a.n >= b.n then
      && a.n == |produced|
      && (forall i :: b.n <= i < |produced| ==> produced[i].side == side)
      && Items(produced[b.n..]) == toB + a.flight
    else
      toB == [] && a.flight == []
  }

  ghost predicate Heard(produced: seq<Entry>, a: Tip) {
    a.n <= |produced| && a.transcript == Said(produced[..a.n])
  }

  ghost predicate Linked(p: Params, script: seq<Want>, produced: seq<Entry>, side: Side, a: Tip, b: Tip,
      toA: seq<Item>, toB: seq<Item>) {
    && LogOk(p, script, produced)
    && Half(produced, side, a, b, toB) && Half(produced, Other(side), b, a, toA)
    && Heard(produced, a) && Heard(produced, b)
  }

  /** The head of `a`'s inbox is the next line of the script. */
  lemma {:induction false} InboxHead(p: Params, script: seq<Want>, produced: seq<Entry>, side: Side, a: Tip, b: Tip,
      toA: seq<Item>, toB: seq<Item>)
    requires Linked(p, script, produced, side, a, b, toA, toB)
    ensures HeadOk(script, a.n, Other(side), a.transcript, toA, p.clientHasCert)
  {
    hide Fits, Said;
    if toA != [] {
      assert b.n > a.n;
      assert EntryOk(script, produced, a.n, p.clientHasCert);
      assert Items(produced[a.n..])[0] == toA[0];
    }
  }

  lemma {:induction false} LinkedTook<T>(p: Params, script: seq<Want>, produced: seq<Entry>, side: Side, e: End<T>,
      b: Tip, toA: seq<Item>, toB: seq<Item>, o: Outcome<T>)
    requires Linked(p, script, produced, side, TipOf(e), b, toA, toB)
    requires Moved(p, script, side, e, toA, o) && o.took
    ensures toA != [] && Linked(p, script, produced, side, TipOf(o.end), b, toA[1..], toB)
  {
    hide Fits, LogOk, Continues;
    var n := e.n;
    assert b.n > n;
    assert Items(produced[n..])[1..] == Items(produced[n + 1..]);
    assert (toA + b.flight)[1..] == toA[1..] + b.flight;
    assert produced[..n + 1][..n] == produced[..n];
    assert toA[0] == produced[n].item by {
      assert Items(produced[n..])[0] == (toA + b.flight)[0];
    }
    if o.end.n >= b.n {
      assert Items(produced[b.n..]) == [];
    }
  }

  lemma {:induction false} LinkedAdded<T>(p: Params, script: seq<Want>, produced: seq<Entry>, side: Side, e: End<T>,
      b: Tip, toA: seq<Item>, toB: seq<Item>, o: Outcome<T>)
    requires Linked(p, script, produced, side, TipOf(e), b, toA, toB)
    requires Moved(p, script, side, e, toA, o) && !o.took
    ensures Linked(p, script, produced + By(side, Fresh(e.flight, o.end.flight)), side, TipOf(o.end), b, toA, toB)
  {
    var news := Fresh(e.flight, o.end.flight);
    assert HashedAll(e.transcript, []) == e.transcript;
    hide Said, HashedAll, LogOk, Fits;
    if news == [] {
      assert produced + By(side, news) == produced;
    } else {
      SenderIsAhead(p, script, produced, side, TipOf(e), b, toA, toB, news);
      NewsLinked(p, script, produced, side, TipOf(e), b, toA, toB, news);
    }
  }

  lemma {:induction false} LoggedFits(p: Params, script: seq<Want>, produced: seq<Entry>, n: nat)
    requires LogOk(p, script, produced)
    ensures n < |produced| ==> n < |script| && Fits(script[n], produced[n].side, produced[n].item)
  {
    assert n < |produced| ==> EntryOk(script, produced, n, p.clientHasCert);
  }

  /** Whoever sends next has heard everything. */
  lemma {:induction false} SenderIsAhead(p: Params, script: seq<Want>, produced: seq<Entry>, side: Side, a: Tip,
      b: Tip, toA: seq<Item>, toB: seq<Item>, news: seq<Item>)
    requires Linked(p, script, produced, side, a, b, toA, toB)
    requires Continues(script, a.n, side, a.transcript, news, p.clientHasCert) && news != []
    ensures a.n >= b.n && a.n == |produced| && toA == [] && b.flight == []
  {
    hide Said, HashedAll;
    LoggedFits(p, script, produced, a.n);
    var first := news[0];
    assert a.n + 0 < |script| && Fits(script[a.n + 0], side, first);
    assert b.n == a.n ==> Items(produced[a.n..]) == [];
  }

  lemma {:induction false} NewsLinked(p: Params, script: seq<Want>, produced: seq<Entry>, side: Side, a: Tip, b: Tip,
      toA: seq<Item>, toB: seq<Item>, news: seq<Item>)
    requires Linked(p, script, produced, side, a, b, toA, toB)
    requires a.n >= b.n && a.n == |produced| && toA == [] && b.flight == [] && news != []
    requires Continues(script, a.n, side, a.transcript, news, p.clientHasCert)
    ensures Linked(p, script, produced + By(side, news), side,
                   Tip(a.n + |news|, HashedAll(a.transcript, news), a.flight + news), b, toA, toB)
  {
    hide Said, HashedAll, LogOk, Continues;
    var all := produced + By(side, news);
    assert produced[..a.n] == produced && all[..a.n + |news|] == all && all[..b.n] == produced[..b.n];
    AddedLog(p, script, produced, side, a.transcript, news);
    SaidMore(produced, side, news);
    assert Items(all[b.n..]) == Items(produced[b.n..]) + news;
    assert toB + (a.flight + news) == toB + a.flight + news;
  }

  lemma {:induction false} AddedLog(p: Params, script: seq<Want>, produced: seq<Entry>, side: Side,
      transcript: seq<Item>, news: seq<Item>)
    requires LogOk(p, script, produced) && transcript == Said(produced)
    requires Continues(script, |produced|, side, transcript, news, p.clientHasCert)
    ensures LogOk(p, script, produced + By(side, news))
  {
    hide Said, HashedAll, Fits;
    var all := produced + By(side, news);
    forall i | 0 <= i < |all|
      ensures EntryOk(script, all, i, p.clientHasCert)
    {
      if i < |produced| {
        assert EntryOk(script, produced, i, p.clientHasCert);
        assert all[..i] == produced[..i];
      } else {
        var j := i - |produced|;
        assert all[..i] == produced + By(side, news[..j]);
        SaidMore(produced, side, news[..j]);
        assert all[i] == Entry(side, news[j]);
        assert Fits(script[|produced| + j], side, news[j]);
      }
    }
  }

  lemma {:induction false} LinkedFlushed<T>(p: Params, script: seq<Want>, produced: seq<Entry>, side: Side, e: End<T>,
      b: Tip, toA: seq<Item>, toB: seq<Item>, k: nat)
    requires Linked(p, script, produced, side, TipOf(e), b, toA, toB) && k <= |e.flight| && e.wait == Flushing
    ensures Linked(p, script, produced, side, TipOf(Flushed(e, k)), b, toA, toB + e.flight[..k])
  {
    hide LogOk, Said;
    var left := e.flight[k..];
    assert TipOf(Flushed(e, k)) == Tip(e.n, e.transcript, left);
    SplitFlight(toB, e.flight, k);
    hide Flushed;
  }

  lemma {:induction false} SplitFlight(toB: seq<Item>, flight: seq<Item>, k: nat)
    requires k <= |flight|
    ensures toB + flight[..k] + flight[k..] == toB + flight
    ensures toB + flight == [] ==> toB + flight[..k] == []
  {
  }

  // ---- the whole connection ----

  ghost predicate NetOk(p: Params, s: Net) {
    var script := RestC(p, CStart);
    && Linked(p, script, s.produced, Client, TipOf(s.client), TipOf(s.server), s.toClient, s.toServer)
    && (if s.client.wait.Failed? then s.client.wait == Failed(Refused) else AtC(p, script, s.client))
    && (if s.server.wait.Failed? then s.server.wait == Failed(Refused) else AtS(p, script, s.server))
    && s.client.added <= 7 && s.server.added <= 7
  }

  lemma {:induction false} Swapped(p: Params, script: seq<Want>, produced: seq<Entry>, side: Side, a: Tip, b: Tip,
      toA: seq<Item>, toB: seq<Item>)
    requires Linked(p, script, produced, side, a, b, toA, toB)
    ensures Linked(p, script, produced, Other(side), b, a, toB, toA)
  {
    hide LogOk, Half, Heard;
  }

  lemma {:induction false} LinkedStep<T>(p: Params, script: seq<Want>, produced: seq<Entry>, side: Side, e: End<T>,
      b: Tip, toA: seq<Item>, toB: seq<Item>, o: Outcome<T>)
    requires Linked(p, script, produced, side, TipOf(e), b, toA, toB) && Moved(p, script, side, e, toA, o)
    ensures Linked(p, script, produced + By(side, Fresh(e.flight, o.end.flight)), side, TipOf(o.end), b,
                   if o.took && toA != [] then toA[1..] else toA, toB)
  {
    if o.took {
      LinkedTook(p, script, produced, side, e, b, toA, toB, o);
      assert Fresh(e.flight, o.end.flight) == [];
      assert produced + By(side, []) == produced;
    } else {
      LinkedAdded(p, script, produced, side, e, b, toA, toB, o);
    }
  }

  lemma {:induction false} AddedBound(p: Params, script: seq<Want>, e: End<ClientState>)
    requires AtC(p, script, e)
    ensures e.added <= 7
  {
    hide RestC;
  }

  lemma {:induction false} AddedBoundS(p: Params, script: seq<Want>, e: End<ServerState>)
    requires AtS(p, script, e)
    ensures e.added <= 7
  {
    hide RestS;
  }

  lemma {:induction false} FailsUnmoved<T>(p: Params, script: seq<Want>, side: Side, e: End<T>, inbox: seq<Item>,
      o: Outcome<T>)
    requires Moved(p, script, side, e, inbox, o) && o.end.wait.Failed?
    ensures o.end.wait == Failed(Refused) && o.end.added == e.added
  {
    hide Continues, HashedAll;
  }

  lemma {:induction false} FailedStays(p: Params, s: Net, v: Verdict, pay: MsgType -> seq<byte>)
    ensures s.client.wait.Failed? ==> ClientStep(p, s.client, s.toClient, v, pay) == Outcome(s.client, false)
    ensures s.server.wait.Failed? ==> ServerStep(p, s.server, s.toServer, v, pay) == Outcome(s.server, false)
  {
    hide ClientDo, ServerDo;
  }

  lemma {:induction false} ClientRuns(p: Params, s: Net, v: Verdict, pay: MsgType -> seq<byte>)
    requires WFParams(p) && NetOk(p, s)
    ensures NetOk(p, Step(p, s, RunClient(v, pay)))
  {
    var script := RestC(p, CStart);
    var o := ClientStep(p, s.client, s.toClient, v, pay);
    hide RestC, Linked, AtC, AtS, Moved, ClientStep, HeadOk;
    if s.client.wait.Failed? {
      FailedStays(p, s, v, pay);
      StaysPut(p, script, Client, s.client, s.toClient, o);
    } else {
      InboxHead(p, script, s.produced, Client, TipOf(s.client), TipOf(s.server), s.toClient, s.toServer);
      ClientKeepsStep(p, script, s.client, s.toClient, v, pay);
      if !o.end.wait.Failed? {
        AddedBound(p, script, o.end);
      } else {
        FailsUnmoved(p, script, Client, s.client, s.toClient, o);
      }
    }
    LinkedStep(p, script, s.produced, Client, s.client, TipOf(s.server), s.toClient, s.toServer, o);
  }

  lemma {:induction false} ServerRuns(p: Params, s: Net, v: Verdict, pay: MsgType -> seq<byte>)
    requires WFParams(p) && NetOk(p, s)
    ensures NetOk(p, Step(p, s, RunServer(v, pay)))
  {
    var script := RestC(p, CStart);
    var o := ServerStep(p, s.server, s.toServer, v, pay);
    hide RestC, Linked, AtC, AtS, Moved, ServerStep, HeadOk;
    Swapped(p, script, s.produced, Client, TipOf(s.client), TipOf(s.server), s.toClient, s.toServer);
    if s.server.wait.Failed? {
      FailedStays(p, s, v, pay);
      StaysPut(p, script, Server, s.server, s.toServer, o);
    } else {
      InboxHead(p, script, s.produced, Server, TipOf(s.server), TipOf(s.client), s.toServer, s.toClient);
      ServerKeepsStep(p, script, s.server, s.toServer, v, pay);
      if !o.end.wait.Failed? {
        AddedBoundS(p, script, o.end);
      } else {
        FailsUnmoved(p, script, Server, s.server, s.toServer, o);
      }
    }
    LinkedStep(p, script, s.produced, Server, s.server, TipOf(s.client), s.toServer, s.toClient, o);
    var t := Step(p, s, RunServer(v, pay));
    Swapped(p, script, t.produced, Server, TipOf(t.server), TipOf(t.client), t.toServer, t.toClient);
  }

  lemma {:induction false} FlushKeepsPlaces(p: Params, script: seq<Want>, c: End<ClientState>, s: End<ServerState>,
      k: nat)
    ensures AtC(p, script, c) && c.wait == Flushing && k <= |c.flight| ==>
              AtC(p, script, Flushed(c, k)) && !Flushed(c, k).wait.Failed?
    ensures AtS(p, script, s) && s.wait == Flushing && k <= |s.flight| ==>
              AtS(p, script, Flushed(s, k)) && !Flushed(s, k).wait.Failed?
  {
    hide RestC, RestS;
  }

  lemma {:induction false} FlushRuns(p: Params, s: Net, k: nat)
    requires NetOk(p, s)
    ensures NetOk(p, Step(p, s, FlushClient(k))) && NetOk(p, Step(p, s, FlushServer(k)))
  {
    var script := RestC(p, CStart);
    hide RestC, Linked, AtC, AtS;
    FlushKeepsPlaces(p, script, s.client, s.server, k);
    if k <= |s.client.flight| && s.client.wait == Flushing {
      LinkedFlushed(p, script, s.produced, Client, s.client, TipOf(s.server), s.toClient, s.toServer, k);
    }
    if k <= |s.server.flight| && s.server.wait == Flushing {
      Swapped(p, script, s.produced, Client, TipOf(s.client), TipOf(s.server), s.toClient, s.toServer);
      LinkedFlushed(p, script, s.produced, Server, s.server, TipOf(s.client), s.toServer, s.toClient, k);
      var t := Step(p, s, FlushServer(k));
      Swapped(p, script, t.produced, Server, TipOf(t.server), TipOf(t.client), t.toServer, t.toClient);
    }
  }

  lemma {:induction false} RunKeepsOk(p: Params, s: Net, events: seq<Event>)
    requires WFParams(p) && NetOk(p, s)
    ensures NetOk(p, Run(p, s, events))
    decreases |events|
  {
    hide NetOk, Step;
    if events != [] {
      match events[0] {
        case RunClient(v, pay) => ClientRuns(p, s, v, pay);
        case RunServer(v, pay) => ServerRuns(p, s, v, pay);
        case FlushClient(k) => FlushRuns(p, s, k);
        case FlushServer(k) => FlushRuns(p, s, k);
      }
      RunKeepsOk(p, Step(p, s, events[0]), events[1..]);
    }
  }

  lemma {:induction false} InitialOk(p: Params)
    requires WFParams(p)
    ensures NetOk(p, Initial())
  {
    ScriptsAgree(p);
    var script := RestC(p, CStart);
    hide RestC, RestS;
    assert script[0..] == script;
    assert Items([]) == [];
  }

  /** Whatever the callbacks answer, however often they ask to be called again and however the
      flights trickle through the transport: neither side ever meets a message it did not expect
      or a Finished it cannot verify, and no flight has more than seven entries. */
  lemma {:induction false} NeverSurprised(p: Params, events: seq<Event>)
    requires WFParams(p)
    ensures var s := Run(p, Initial(), events);
            && s.client.wait != Failed(Unexpected) && s.client.wait != Failed(BadFinished)
            && s.server.wait != Failed(Unexpected) && s.server.wait != Failed(BadFinished)
            && s.client.added <= 7 && s.server.added <= 7
  {
    hide Linked, RestC, AtC, AtS, Run;
    InitialOk(p);
    RunKeepsOk(p, Initial(), events);
  }

  /** At every moment one transcript is a prefix of the other, every Finished ever sent is the MAC
      of exactly what had been said before it, and everything was said once, in the order of the
      script. */
  lemma {:induction false} TranscriptsAgree(p: Params, events: seq<Event>)
    requires WFParams(p)
    ensures var s := Run(p, Initial(), events);
            && (s.client.transcript <= s.server.transcript || s.server.transcript <= s.client.transcript)
            && LogOk(p, RestC(p, CStart), s.produced)
  {
    hide Half, RestC, AtC, AtS, Run, LogOk;
    InitialOk(p);
    RunKeepsOk(p, Initial(), events);
    var s := Run(p, Initial(), events);
    if s.client.n <= s.server.n {
      SaidPrefix(s.produced, s.client.n, s.server.n);
    } else {
      SaidPrefix(s.produced, s.server.n, s.client.n);
    }
  }

  lemma {:induction false} SaidPrefix(entries: seq<Entry>, m: nat, n: nat)
    requires m <= n <= |entries|
    ensures Said(entries[..m]) <= Said(entries[..n])
    decreases n
  {
    if m < n {
      SaidPrefix(entries, m, n - 1);
      assert entries[..n][..n - 1] == entries[..n - 1];
    }
  }

  /** When both sides are done, they agree on everything that was said, and it was the whole
      script. */
  lemma {:induction false} DoneMeansAgreed(p: Params, events: seq<Event>)
    requires WFParams(p)
    requires var s := Run(p, Initial(), events);
             s.client.state == CDone && s.server.state == SDone && !s.client.wait.Failed? && !s.server.wait.Failed?
    ensures var s := Run(p, Initial(), events);
            && s.client.transcript == s.server.transcript == Said(s.produced)
            && |s.produced| == |RestC(p, CStart)|
            && s.toClient == [] && s.toServer == []
  {
    hide Run, LogOk, Said;
    InitialOk(p);
    RunKeepsOk(p, Initial(), events);
    var s := Run(p, Initial(), events);
    assert RestC(p, CDone) == [] && RestS(p, SDone) == [];
    hide RestC, RestS;
    assert s.produced[..|s.produced|] == s.produced;
  }
}
