/** One connection direction made of the objects themselves: the flight sender, whatever the
    network does to its records, and the in-place receiver. Every call is one event of a run of
    the value-level network, so what is proved of all runs holds of the objects. */
module DtlsLink {
  import opened Wire
  import opened HandshakeReceive
  import opened HandshakeReceiver
  import RecordWriter
  import opened DtlsDelivery
  import Send = HandshakeSend

  /** The records of some packets. */
  function Records(packets: seq<seq<RecordWriter.Sealed>>): seq<RecordWriter.Sealed> {
    if packets == [] then [] else Records(packets[..|packets| - 1]) + packets[|packets| - 1]
  }

  lemma {:induction false} GoodRecords(packets: seq<seq<RecordWriter.Sealed>>, flight: seq<Send.Outgoing>, mtu: nat)
    requires Send.GoodPackets(packets, flight, mtu)
    ensures forall r :: r in Records(packets) ==> Send.CarriesFlight(r, flight)
    decreases |packets|
  {
    hide Send.CarriesFlight, Send.WireLength;
    if packets != [] {
      var front := packets[..|packets| - 1];
      assert forall p :: p in front ==> p in packets;
      GoodRecords(front, flight, mtu);
      assert packets[|packets| - 1] in packets;
    }
  }

  /** Packet by packet or record by record, the same is said. */
  lemma {:induction false} RecordsSay(packets: seq<seq<RecordWriter.Sealed>>)
    ensures Send.RecordsMarks(Records(packets)) == Send.PacketsMarks(packets)
  {
    hide Send.RecordMarks;
    if packets != [] {
      var front, last := packets[..|packets| - 1], packets[|packets| - 1];
      RecordsSay(front);
      RecordsSayBoth(Records(front), last);
    }
  }

  lemma {:induction false} RecordsSayBoth(a: seq<RecordWriter.Sealed>, b: seq<RecordWriter.Sealed>)
    ensures Send.RecordsMarks(a + b) == Send.RecordsMarks(a) + Send.RecordsMarks(b)
    decreases |b|
  {
    hide Send.RecordMarks;
    if b == [] {
      assert a + b == a;
    } else {
      RecordsSayBoth(a, b[..|b| - 1]);
      assert (a + b)[..|a + b| - 1] == a + b[..|b| - 1];
    }
  }

  lemma {:induction false} OneMoreEvent(events: seq<NetEvent>, e: NetEvent)
    ensures RunNet(events + [e]) == NetStep(RunNet(events), e)
  {
    hide NetStep;
    assert (events + [e])[..|events|] == events;
  }

  lemma {:induction false} Transmitted(net: Net, flight: seq<Send.Outgoing>, records: seq<RecordWriter.Sealed>)
    requires RingOk(net.recv) && FlightFrom(flight, net.history)
    requires forall r :: r in records ==> Send.CarriesFlight(r, flight)
    ensures var all := set r | r in records; NetStep(net, Transmit(flight, all)) == net.(sent := net.sent + all)
  {
    hide Send.CarriesFlight, FlightFrom, RingOk;
  }

  /** What the sender writes under the next number keeps the flight made of added messages. */
  lemma {:induction false} FlightGrows(flight: seq<Send.Outgoing>, history: seq<HsMessage>, m: HsMessage,
      entry: Send.Outgoing)
    requires FlightFrom(flight, history) && !entry.isCcs && entry.data == FragmentBytes(AsFragment(m, |history|))
    ensures FlightFrom(flight + [entry], history + [m])
  {
    hide FragmentBytes, AsFragment;
    var more := history + [m];
    forall i | 0 <= i < |flight| + 1 && !(flight + [entry])[i].isCcs
      ensures exists k :: 0 <= k < |more| && (flight + [entry])[i].data == FragmentBytes(AsFragment(more[k], k))
    {
      if i < |flight| {
        var k :| 0 <= k < |history| && flight[i].data == FragmentBytes(AsFragment(history[k], k));
        assert more[k] == history[k];
      } else {
        assert more[|history|] == m;
      }
    }
  }

  lemma {:induction false} FlightWithCcs(flight: seq<Send.Outgoing>, history: seq<HsMessage>, entry: Send.Outgoing)
    requires FlightFrom(flight, history) && entry.isCcs
    ensures FlightFrom(flight + [entry], history)
  {
    hide FragmentBytes, AsFragment;
  }

  /** The sending end with the list of the messages it has added. */
  class Speaker {
    const sender: Send.FlightSender
    ghost var history: seq<HsMessage>

    ghost function Objects(): set<object> {
      {this, sender, sender.writer, sender.outgoing}
    }

    /** The next sequence number is the number of messages, and the flight is made of them. */
    ghost predicate Valid()
      reads Objects()
    {
      && sender.Valid() && AllFit(history)
      && sender.writeSeq == |history| % SEQ_LIMIT
      && FlightFrom(sender.Flight(), history)
    }

    constructor ()
      ensures Valid() && history == [] && fresh(Objects())
    {
      sender := new Send.FlightSender();
      history := [];
    }

    /** dtls1_finish_message and dtls1_add_message. */
    method Say(msgType: byte, body: seq<byte>) returns (added: bool)
      requires Valid() && |history| < SEQ_LIMIT
      modifies this`history, sender, sender.outgoing
      ensures Valid() && (added ==> MessageFits(HsMessage(msgType, body)))
      ensures added <==> |body| < 0x100_0000 && (old(sender.complete) || old(sender.len) < MAX_FLIGHT)
      ensures history == if added then old(history) + [HsMessage(msgType, body)] else old(history)
    {
      hide FlightFrom, FragmentBytes, Send.WholeMessage;
      NoFlight(history);
      ghost var flight := if sender.complete then [] else sender.Flight();
      assert |flight| == if sender.complete then 0 else sender.len;
      var message := sender.BuildMessage(msgType, body);
      if message == None {
        return false;
      }
      added := sender.Add(false, message.value);
      if added {
        FlightGrows(flight, history, HsMessage(msgType, body),
            Send.Outgoing(message.value, sender.writer.numbers.epoch, false));
        history := history + [HsMessage(msgType, body)];
      }
    }

    method SayChangeCipherSpec() returns (added: bool)
      requires Valid()
      modifies sender, sender.outgoing
      ensures Valid()
    {
      hide FlightFrom;
      NoFlight(history);
      ghost var flight := if sender.complete then [] else sender.Flight();
      added := sender.Add(true, []);
      if added {
        FlightWithCcs(flight, history, Send.Outgoing([], sender.writer.numbers.epoch, true));
      }
    }

    method ChangeWriteState(aead: RecordWriter.AeadLengths)
      requires Valid() && aead.Valid()
      modifies sender.writer
      ensures Valid()
    {
      hide FlightFrom;
      sender.writer.SetWriteState(aead);
    }

    /** Writes the flight, or what is left of it; or all of it once more. What is written is
        something an honest sender of this history may transmit. */
    method Transmits(again: bool, shutDown: bool, noQuery: bool, queried: int, aead: nat -> nat -> bool,
                     accepts: nat -> bool, flushed: bool)
      returns (result: Send.SendResult, records: seq<RecordWriter.Sealed>)
      requires Valid()
      modifies sender, sender.writer
      ensures Valid() && sender.Valid()
      ensures FlightFrom(sender.Flight(), history) && sender.Flight() == old(sender.Flight())
      ensures forall r :: r in records ==> Send.CarriesFlight(r, sender.Flight())
      ensures var start := if again then old(sender.Snap()).(written := 0, offset := 0) else old(sender.Snap());
              && (result.Sent? ==>
                    && sender.ToSend() == []
                    && Send.RecordsMarks(records) == Send.Remaining(sender.Flight(), start.written, start.offset))
              && (Send.Unhindered(start, sender.Flight(), sender.mtu, shutDown, aead, accepts, flushed) ==>
                    result.Sent?)
    {
      hide FlightFrom, Send.GoodPackets, Send.Remaining, Send.SaidOf, Send.CarriesFlight, Send.Unhindered,
          Send.Reported, Send.PacketsMarks, Send.RecordsMarks;
      ghost var flight := sender.Flight();
      var packets, dropped;
      if again {
        result, packets, dropped := sender.Retransmit(shutDown, noQuery, queried, aead, accepts, flushed);
      } else {
        result, packets, dropped := sender.FlushFlight(shutDown, noQuery, queried, aead, accepts, flushed);
      }
      assert sender.Flight() == flight;
      GoodRecords(packets, flight, sender.mtu);
      RecordsSay(packets);
      records := Records(packets);
    }
  }

  class Link {
    const speaker: Speaker
    const receiver: Receiver
    /** Every record that was ever written; the network may deliver any of them, any number of
        times, in any order, or not at all. */
    var wire: seq<RecordWriter.Sealed>
    ghost var events: seq<NetEvent>

    ghost predicate Apart()
      reads this, receiver
    {
      receiver.repr !! {this, receiver, receiver.ring} + speaker.Objects()
    }

    ghost predicate Valid()
      reads this, speaker.Objects(), receiver, receiver.ring, receiver.repr
    {
      && Apart() && speaker.Valid() && receiver.Valid()
      && speaker.history == Now().history
      && (forall r :: r in wire ==> r in Now().sent)
      && receiver.View() == Now().recv
    }

    ghost function Now(): Net
      reads this
    {
      RunNet(events)
    }

    constructor ()
      ensures Valid() && Now() == START && wire == []
      ensures fresh(speaker.Objects()) && fresh(receiver) && fresh(receiver.ring) && receiver.repr == {}
    {
      speaker := new Speaker();
      receiver := new Receiver();
      wire, events := [], [];
    }

    ghost method Happened(e: NetEvent)
      modifies this`events
      ensures Now() == NetStep(old(Now()), e)
    {
      hide RunNet;
      OneMoreEvent(events, e);
      events := events + [e];
    }

    /** The sender adds a message, under the next sequence number. */
    method Say(msgType: byte, body: seq<byte>) returns (added: bool)
      requires Valid() && |Now().history| < SEQ_LIMIT
      modifies this`events, speaker`history, speaker.sender, speaker.sender.outgoing
      ensures Valid() && wire == old(wire)
      ensures Now().history == if added then old(Now()).history + [HsMessage(msgType, body)] else old(Now()).history
    {
      hide RunNet, RingOk, Speaker.Valid, Receiver.Shape;
      added := speaker.Say(msgType, body);
      if added {
        Happened(Add(HsMessage(msgType, body)));
      }
    }

    method SayChangeCipherSpec() returns (added: bool)
      requires Valid()
      modifies speaker.sender, speaker.sender.outgoing
      ensures Valid() && Now() == old(Now())
    {
      hide RunNet, RingOk, Speaker.Valid, Receiver.Shape;
      added := speaker.SayChangeCipherSpec();
    }

    method ChangeWriteState(aead: RecordWriter.AeadLengths)
      requires Valid() && aead.Valid()
      modifies speaker.sender.writer
      ensures Valid() && Now() == old(Now())
    {
      hide RunNet, RingOk, Speaker.Valid, Receiver.Shape;
      speaker.ChangeWriteState(aead);
    }

    /** The flight, or what is left of it, or all of it again, goes out under the current MTU. */
    method Transmits(again: bool, shutDown: bool, noQuery: bool, queried: int, aead: nat -> nat -> bool,
                     accepts: nat -> bool, flushed: bool)
      returns (result: Send.SendResult)
      requires Valid()
      modifies this`wire, this`events, speaker.sender, speaker.sender.writer
      ensures Valid() && old(wire) <= wire && Now().history == old(Now()).history
      ensures var sender, was := speaker.sender, old(speaker.sender.Snap());
              var start := if again then was.(written := 0, offset := 0) else was;
              && (result.Sent? ==>
                    && sender.ToSend() == [] && Send.RecordsMarks(wire[|old(wire)|..])
                        == Send.Remaining(sender.Flight(), start.written, start.offset))
              && (Send.Unhindered(start, sender.Flight(), sender.mtu, shutDown, aead, accepts, flushed) ==>
                    result.Sent?)
    {
      hide RunNet, RingOk, Speaker.Valid, Receiver.Shape, Send.CarriesFlight, FlightFrom, Send.Unhindered,
          Send.RecordsMarks, Send.Remaining, NetStep;
      var records;
      result, records := speaker.Transmits(again, shutDown, noQuery, queried, aead, accepts, flushed);
      assert (wire + records)[|wire|..] == records;
      Transmitted(Now(), speaker.sender.Flight(), records);
      Happened(Transmit(speaker.sender.Flight(), set r | r in records));
      wire := wire + records;
    }

    /** The network delivers record `i`, once more. */
    method Deliver(i: nat, nullCipher: bool, maxMessageLen: nat) returns (result: OpenResult)
      requires Valid() && i < |wire|
      modifies this`events, receiver, receiver.ring, receiver.repr
      ensures Valid() && Now().history == old(Now()).history && wire == old(wire)
      ensures (Now().recv, result)
              == OpenHandshake(old(Now()).recv, wire[i].contentType, nullCipher, wire[i].payload, maxMessageLen)
    {
      hide RunNet, Speaker.Valid, RingOk, OpenHandshake, Receiver.Shape;
      var r := wire[i];
      result := receiver.Open(r.contentType, nullCipher, r.payload, maxMessageLen);
      Happened(NetEvent.Deliver(r, nullCipher, maxMessageLen));
    }

    /** Whatever has happened so far: a message the receiver hands out is, header and body, byte
        for byte the one the sender added with the next sequence number. */
    method Get() returns (message: Option<Message>)
      requires Valid()
      modifies this`events, receiver
      ensures Valid() && Now().history == old(Now()).history && wire == old(wire)
      ensures (Now().recv, message) == GetMessage(old(Now()).recv)
      ensures message.Some? ==>
                && receiver.readSeq < |Now().history|
                && var m := Now().history[receiver.readSeq];
                   message.value == Message(m.msgType, m.body, FragmentBytes(AsFragment(m, receiver.readSeq)))
    {
      hide RunNet, Speaker.Valid, RingOk, FragmentBytes, Receiver.Shape;
      HandedOutIsWhatWasAdded(events);
      message := receiver.Get();
      Happened(Local(Event.Get));
    }

    method Next()
      requires Valid() && receiver.hasMessage
      modifies this`events, receiver, receiver.ring
      ensures Valid() && Now().history == old(Now()).history
      ensures Now().recv == NextMessage(old(Now()).recv)
      ensures |Now().delivered| == |old(Now()).delivered| + 1 && old(Now()).delivered <= Now().delivered
    {
      hide RunNet, Speaker.Valid, RingOk, NextMessage, Receiver.Shape;
      receiver.Next();
      Happened(Local(Event.Next));
    }

    method ChangeReadState() returns (changed: bool)
      requires Valid()
      modifies this`events, receiver
      ensures Valid() && Now().history == old(Now()).history
      ensures (Now().recv, changed) == SetReadState(old(Now()).recv)
    {
      hide RunNet, Speaker.Valid, RingOk, SetReadState, Receiver.Shape;
      changed := receiver.ChangeReadState();
      Happened(Local(ChangeReadEpoch));
    }

    method TakeChangeCipherSpec()
      requires Valid()
      modifies this`events, receiver
      ensures Valid() && Now().history == old(Now()).history
      ensures Now().recv == old(Now()).recv.(hasChangeCipherSpec := false)
    {
      hide RunNet, Speaker.Valid, RingOk, Receiver.Shape;
      receiver.FlagChangeCipherSpec(false);
      Happened(Local(TakeCcs));
    }
  }

  lemma {:induction false} NoFlight(history: seq<HsMessage>)
    ensures FlightFrom([], history)
  {
  }
}
