/** The in-place receiver: an array of seven message buffers with reassembly bitmasks, each
    method proved to be the step of the value-level receiver. */
module HandshakeReceiver {
  import opened Wire
  import opened Reassembly
  import opened HandshakeReceive

  class Receiver {
    const ring: array<HmFragment?>
    var readSeq: nat
    var hasMessage: bool
    var readEpoch: nat
    var hasChangeCipherSpec: bool
    ghost var era: nat
    ghost var repr: set<object>

    ghost predicate Owns(i: nat)
      requires i < ring.Length
      reads this, ring, repr
    {
      var f := ring[i];
      f != null ==> f in repr && f.Parts() <= repr && f.Valid()
    }

    ghost predicate Apart(i: nat, j: nat)
      requires i < ring.Length && j < ring.Length
      requires Owns(i) && Owns(j)
      reads this, ring, repr
    {
      var f, g := ring[i], ring[j];
      f != null && g != null ==> f.Parts() !! g.Parts()
    }

    /** The buffers are this object's own and pairwise apart. */
    ghost predicate Shape()
      reads this, ring, repr
    {
      && this !in repr && ring !in repr
      && ring.Length == MAX_FLIGHT
      && (forall i :: 0 <= i < MAX_FLIGHT ==> Owns(i))
      && (forall i, j :: 0 <= i < j < MAX_FLIGHT ==> Apart(i, j))
    }

    ghost predicate Valid()
      reads this, ring, repr
    {
      Shape() && RingOk(View())
    }

    ghost function SlotView(i: nat): Option<Incoming>
      requires i < ring.Length && Owns(i)
      reads this, ring, repr
    {
      if ring[i] == null then None else Some(ring[i].model)
    }

    /** The value this object stands for. */
    ghost function View(): (s: ReceiveState)
      requires Shape()
      reads this, ring, repr
      ensures |s.slots| == MAX_FLIGHT
      ensures forall i :: 0 <= i < MAX_FLIGHT ==> s.slots[i] == SlotView(i)
    {
      ReceiveState(readSeq,
                   [SlotView(0), SlotView(1), SlotView(2), SlotView(3), SlotView(4), SlotView(5), SlotView(6)],
                   hasMessage, readEpoch, era, hasChangeCipherSpec)
    }

    constructor ()
      ensures Valid() && fresh(ring) && repr == {} && View() == INITIAL
    {
      ring := new HmFragment?[MAX_FLIGHT](_ => null);
      readSeq, hasMessage, readEpoch, hasChangeCipherSpec := 0, false, 0, false;
      era := 0;
      repr := {};
    }

    method Insert(idx: nat, f: HmFragment)
      requires Shape() && idx < MAX_FLIGHT && ring[idx] == null && f.Valid()
      requires f.Parts() !! repr + {this, ring}
      modifies this`repr, ring
      ensures Shape() && ring[idx] == f
      ensures repr == old(repr) + f.Parts()
      ensures View() == old(View()).(slots := old(View()).slots[idx := Some(f.model)])
    {
      ring[idx] := f;
      repr := repr + f.Parts();
      forall j | 0 <= j < MAX_FLIGHT
        ensures Owns(j)
      {
        assert old(Owns(j));
      }
      forall i, j | 0 <= i < j < MAX_FLIGHT
        ensures Apart(i, j)
      {
        assert old(Owns(i) && Owns(j) && Apart(i, j));
      }
    }

    predicate InWindow(seqNum: nat)
      reads this
    {
      readSeq <= seqNum < readSeq + MAX_FLIGHT
    }

    /** dtls1_get_incoming_message. */
    method GetIncoming(h: HmHeader) returns (f: HmFragment?, alert: Alert)
      requires Shape() && RingOk(View()) && HeaderFits(h)
      modifies this`repr, ring
      ensures Shape() && fresh(repr - old(repr))
      ensures f == null <==> !InWindow(h.seqNum) || FindIncoming(old(View()), h).None?
      ensures f == null ==> View() == old(View()) && alert == if InWindow(h.seqNum) then IllegalParameter
          else InternalError
      ensures f != null ==>
                && f == ring[Slot(h.seqNum)]
                && View() == old(View()).(slots := old(View()).slots[Slot(h.seqNum) := FindIncoming(old(View()), h)])
    {
      hide RingOk, IncomingOk;
      alert := InternalError;
      if h.seqNum < readSeq || h.seqNum - readSeq >= MAX_FLIGHT {
        return null, alert;
      }
      var idx := Slot(h.seqNum);
      f := ring[idx];
      assert Owns(idx);
      if f != null {
        SameSlotSameSequence(View(), h.seqNum);
        assert f.seqNum == h.seqNum;
        if f.msgType != h.msgType || f.msgLen != h.msgLen {
          f, alert := null, IllegalParameter;
        }
        return;
      }
      f := new HmFragment(h);
      Insert(idx, f);
    }

    /** Adds a fragment's bytes to the incomplete message in slot `idx`. */
    method ReceiveInto(idx: nat, g: HmFragment, f: Fragment)
      requires Shape() && idx < MAX_FLIGHT && ring[idx] == g && g.reassembly != null
      requires g.Valid() && f.header.fragOff + |f.body| <= g.msgLen
      modifies g`reassembly, g`model, g.data, g.reassembly
      ensures Shape()
      ensures View() == old(View()).(slots := old(View()).slots[idx := Some(AddBytes(old(g.model), f, era))])
    {
      assert Owns(idx);
      g.Receive(f, era);
      forall j | 0 <= j < MAX_FLIGHT
        ensures Owns(j)
        ensures j != idx ==> SlotView(j) == old(SlotView(j))
      {
        assert old(Owns(j));
        if j < idx {
          assert old(Apart(j, idx));
        } else if idx < j {
          assert old(Apart(idx, j));
        }
      }
      forall i, j | 0 <= i < j < MAX_FLIGHT
        ensures Apart(i, j)
      {
        assert old(Owns(i) && Owns(j) && Apart(i, j));
      }
    }

    /** Adds a fragment to the message in slot `idx`, unless the message is complete. */
    method AddTo(idx: nat, g: HmFragment, f: Fragment)
      requires Shape() && idx < MAX_FLIGHT && ring[idx] == g
      requires g.Valid() && f.header.fragOff + |f.body| <= g.msgLen
      modifies g.Parts()
      ensures Shape() && |old(g.model).data| == HM_HEADER_LENGTH + old(g.model).msgLen
          && old(g.model).msgLen == g.msgLen
      ensures View() == old(View()).(slots := old(View()).slots[idx :=
                          Some(if old(g.model).Complete() then old(g.model) else AddBytes(old(g.model), f, era))])
    {
      hide AddBytes;
      assert Owns(idx) && SlotView(idx) == Some(g.model);
      if g.reassembly != null {
        ReceiveInto(idx, g, f);
      }
    }

    /** Puts a fragment into its message; fails if it is outside the window or does not match. */
    method Deliver(f: Fragment) returns (outcome: Outcome)
      requires Shape() && RingOk(View()) && HeaderFits(f.header) && |f.body| == f.header.fragLen
      requires f.header.fragOff + f.header.fragLen <= f.header.msgLen
      modifies this`repr, ring, repr
      ensures Shape() && fresh(repr - old(repr))
      ensures outcome == if !InWindow(f.header.seqNum) then Failed(InternalError)
                         else if FindIncoming(old(View()), f.header).None? then Failed(IllegalParameter) else Continue
      ensures outcome.Failed? ==> View() == old(View())
      ensures outcome.Continue? ==>
                var m := FindIncoming(old(View()), f.header).value;
                && m.msgLen == f.header.msgLen && |m.data| == HM_HEADER_LENGTH + m.msgLen
                && View() == old(View()).(slots := old(View()).slots[Slot(f.header.seqNum) :=
                      Some(if m.Complete() then m else AddBytes(m, f, era))])
    {
      hide RingOk, HeaderFits, Overwrite, AddBytes, NewIncoming, FindIncoming;
      var idx := Slot(f.header.seqNum);
      if InWindow(f.header.seqNum) {
        FoundIsOk(View(), f.header);
      }
      var g, alert := GetIncoming(f.header);
      if g == null {
        return Failed(alert);
      }
      assert Owns(idx) && SlotView(idx) == Some(g.model);
      assert g.Parts() <= repr;
      hide Shape, SlotView, View;
      AddTo(idx, g, f);
      return Continue;
    }

    /** The body of dtls1_open_handshake's loop. */
    method ReceiveFragment(f: Fragment, maxMessageLen: nat) returns (outcome: Outcome)
      requires Valid() && HeaderFits(f.header) && |f.body| == f.header.fragLen
      modifies this`repr, ring, repr
      ensures Valid() && fresh(repr - old(repr))
      ensures (View(), outcome) == ProcessFragment(old(View()), f, maxMessageLen)
    {
      hide RingOk, Shape, Overwrite, AddBytes, FindIncoming, HeaderFits;
      ProcessKeepsRing(View(), f, maxMessageLen);
      var h := f.header;
      if h.fragOff > h.msgLen || h.fragOff + h.fragLen > h.msgLen || h.msgLen > maxMessageLen {
        return Failed(IllegalParameter);
      }
      if readEpoch == 1 && h.seqNum != readSeq {
        return Failed(UnexpectedMessage);
      }
      if h.seqNum < readSeq || h.seqNum > readSeq + MAX_FLIGHT {
        return Continue;
      }
      outcome := Deliver(f);
    }

    /** dtls1_open_handshake, after the record layer has opened the record. */
    method Open(contentType: nat, nullCipher: bool, record: seq<byte>, maxMessageLen: nat)
      returns (result: OpenResult)
      requires Valid()
      modifies this, ring, repr
      ensures Valid() && fresh(repr - old(repr))
      ensures (View(), result) == OpenHandshake(old(View()), contentType, nullCipher, record, maxMessageLen)
    {
      hide RingOk, Shape, ParseFragment, ProcessFragment, HeaderFits;
      if contentType == APPLICATION_DATA {
        return if nullCipher then Error(UnexpectedMessage) else Discard;
      }
      if contentType == CHANGE_CIPHER_SPEC {
        if !nullCipher {
          return Error(UnexpectedMessage);
        }
        if |record| != 1 || record[0] != 1 {
          return Error(IllegalParameter);
        }
        FlagChangeCipherSpec(true);
        return Success;
      }
      if contentType != HANDSHAKE {
        return Error(UnexpectedMessage);
      }
      var rest := record;
      while rest != []
        invariant Valid() && fresh(repr - old(repr))
        invariant ProcessRecord(old(View()), record, maxMessageLen) == ProcessRecord(View(), rest, maxMessageLen)
        decreases |rest|
      {
        var parsed := ParseFragment(rest);
        if parsed == None {
          return Error(DecodeError);
        }
        ParsedFragmentPrints(rest);
        var (f, tail) := parsed.value;
        var outcome := ReceiveFragment(f, maxMessageLen);
        if outcome.Failed? {
          return Error(outcome.alert);
        }
        rest := tail;
      }
      return Success;
    }

    /** Assigning the counters and flags leaves the buffers as they were. */
    twostate lemma CountersOnly()
      requires old(Shape()) && unchanged(ring) && unchanged(this`repr) && unchanged(old(repr))
      ensures Shape() && View().slots == old(View()).slots
    {
      forall j | 0 <= j < MAX_FLIGHT
        ensures Owns(j) && SlotView(j) == old(SlotView(j))
      {
        assert old(Owns(j));
      }
      forall i, j | 0 <= i < j < MAX_FLIGHT
        ensures Apart(i, j)
      {
        assert old(Owns(i) && Owns(j) && Apart(i, j));
      }
    }

    /** Sets or clears has_change_cipher_spec. */
    method FlagChangeCipherSpec(flag: bool)
      requires Valid()
      modifies this`hasChangeCipherSpec
      ensures Valid() && View() == old(View()).(hasChangeCipherSpec := flag)
    {
      hide RingOk;
      hasChangeCipherSpec := flag;
      CountersOnly();
      CountersKeepRing(old(View()), View());
    }

    method Get() returns (message: Option<Message>)
      requires Valid()
      modifies this`hasMessage
      ensures Valid() && (View(), message) == GetMessage(old(View()))
    {
      hide IncomingOk;
      var f := ring[Slot(readSeq)];
      assert Owns(Slot(readSeq));
      if f == null || f.reassembly != null {
        return None;
      }
      message := Some(Message(f.msgType, f.data[HM_HEADER_LENGTH..], f.data[..]));
      hasMessage := true;
      CountersOnly();
    }

    method Release(idx: nat)
      requires Shape() && idx < MAX_FLIGHT
      modifies ring
      ensures Shape() && View() == old(View()).(slots := old(View()).slots[idx := None])
    {
      ring[idx] := null;
      forall j | 0 <= j < MAX_FLIGHT
        ensures Owns(j) && (j != idx ==> SlotView(j) == old(SlotView(j)))
      {
        assert old(Owns(j));
      }
      forall i, j | 0 <= i < j < MAX_FLIGHT
        ensures Apart(i, j)
      {
        assert old(Owns(i) && Owns(j) && Apart(i, j));
      }
    }

    method Next()
      requires Valid() && hasMessage
      modifies this`readSeq, this`hasMessage, ring
      ensures Valid() && View() == NextMessage(old(View()))
    {
      hide Shape, RingOk;
      NextKeepsRing(View());
      Release(Slot(readSeq));
      label released:
      readSeq := (readSeq + 1) % SEQ_LIMIT;
      hasMessage := false;
      CountersOnly@released();
    }

    /** dtls_has_unprocessed_handshake_data. */
    method HasUnprocessedData() returns (unprocessed: bool)
      requires Valid()
      ensures unprocessed <==> HasUnprocessed(View())
    {
      hide RingOk;
      if hasChangeCipherSpec {
        return true;
      }
      var current := Slot(readSeq);
      for i := 0 to MAX_FLIGHT
        invariant forall j :: 0 <= j < i ==> View().slots[j].None? || (hasMessage && j == current)
      {
        if hasMessage && i == current {
          continue;
        }
        if ring[i] != null {
          assert View().slots[i].Some?;
          return true;
        }
      }
      return false;
    }

    /** dtls1_set_read_state. */
    method ChangeReadState() returns (changed: bool)
      requires Valid()
      modifies this`readEpoch, this`era
      ensures Valid() && (View(), changed) == SetReadState(old(View()))
    {
      hide IncomingOk;
      var unprocessed := HasUnprocessedData();
      if unprocessed {
        return false;
      }
      readEpoch := (readEpoch + 1) % SEQ_LIMIT;
      era := era + 1;
      CountersOnly();
      CountersKeepRing(old(View()), View());
      return true;
    }
  }
}
