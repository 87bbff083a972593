/** Opening DTLS records (RFC 6347, sections 4.1 and 4.1.2): header, epoch, replay window and
    AEAD, as a value and in place, and no record accepted twice. */
module RecordReader {
  import opened Wire
  import opened ReplayWindow

  const HEADER_LENGTH: nat := 13
  const MAX_ENCRYPTED_LENGTH: nat := 16384 + 256 + 64
  const EPOCH_UNIT: nat := 0x1_0000_0000_0000

  datatype Record = Record(contentType: nat, version: nat, sequence: Sequence, body: seq<byte>)

  lemma {:induction false} EightBytes()
    ensures Pow256(8) == 0x1_0000_0000_0000_0000
  {
    Widths();
    assert Pow256(4) == 256 * Pow256(3) && Pow256(5) == 256 * Pow256(4);
    assert Pow256(6) == 256 * Pow256(5) && Pow256(7) == 256 * Pow256(6);
  }

  /** The first record of a datagram; none if it is cut short or its body is too long. */
  function DecodeRecord(input: seq<byte>): Option<Record> {
    if |input| < HEADER_LENGTH then None
    else
      var len := FromBE(input[11..13]);
      if |input| < HEADER_LENGTH + len || len > MAX_ENCRYPTED_LENGTH then None
      else
        EightBytes();
        Some(Record(FromBE(input[..1]), FromBE(input[1..3]), FromBE(input[3..11]),
                    input[HEADER_LENGTH..HEADER_LENGTH + len]))
  }

  /** to_u64_be: the loop over eight bytes. */
  method ToU64(input: seq<byte>) returns (v: nat)
    ensures v == FromBE(input)
  {
    v := 0;
    for i := 0 to |input|
      invariant v == FromBE(input[..i])
    {
      assert input[..i + 1][..i] == input[..i];
      v := v * 256 + input[i];
    }
    assert input[..|input|] == input;
  }

  /** What the caller fixes: the AEAD (none when authentication fails), the expected record
      version, or the null cipher, which only checks the major version. */
  datatype Cipher = Cipher(isNull: bool, version: nat, open: Record -> Option<seq<byte>>)

  predicate VersionOk(c: Cipher, version: nat) {
    if c.isNull then version / 256 == 0xfe else version == c.version
  }

  datatype Result =
    | Success(contentType: nat, plaintext: seq<byte>)
    | AlertReceived(plaintext: seq<byte>)
    | Discard | Partial | CloseNotify | RecordOverflow

  datatype Reader = Reader(epoch: nat, recorded: set<Sequence>)

  ghost predicate Accepts(s: Reader, c: Cipher, r: Record) {
    && (if c.isNull then r.version / 256 == 254 else r.version == c.version)
    && r.sequence / 0x1_0000_0000_0000 == s.epoch
    && r.sequence !in s.recorded && (forall m :: m in s.recorded ==> m - r.sequence < 64)
    && c.open(r).Some?
    && |c.open(r).value| <= 16384
  }

  /** dtls_open_record: the new state, the result and the number of bytes consumed. */
  ghost function OpenRecord(s: Reader, input: seq<byte>, closed: bool, c: Cipher): (Reader, Result, nat) {
    if closed then (s, CloseNotify, 0)
    else if input == [] then (s, Partial, 0)
    else match DecodeRecord(input)
      case None => (s, Discard, |input|)
      case Some(r) =>
        var consumed := HEADER_LENGTH + |r.body|;
        if !VersionOk(c, r.version) then (s, Discard, |input|)
        else if r.sequence / EPOCH_UNIT != s.epoch || Discards(s.recorded, r.sequence) then (s, Discard, consumed)
        else match c.open(r)
          case None => (s, Discard, consumed)
          case Some(plaintext) =>
            if |plaintext| > MAX_PLAIN_LENGTH then (s, RecordOverflow, consumed)
            else (s.(recorded := s.recorded + {r.sequence}),
                  if r.contentType == ALERT then AlertReceived(plaintext) else Success(r.contentType, plaintext),
                  consumed)
  }

  /** A record is accepted exactly when it is authentic, of the current epoch and neither
      recorded nor 64 or more behind; anything else leaves the window as it was. */
  lemma {:induction false} AcceptedOrUnchanged(s: Reader, input: seq<byte>, c: Cipher)
    requires DecodeRecord(input).Some?
    ensures var r := DecodeRecord(input).value;
            var (s', result, consumed) := OpenRecord(s, input, false, c);
            && (Accepts(s, c, r) <==> result.Success? || result.AlertReceived?)
            && (Accepts(s, c, r) ==>
                  result == if r.contentType == 21 then AlertReceived(c.open(r).value)
                            else Success(r.contentType, c.open(r).value))
            && (Accepts(s, c, r) ==> s' == Reader(s.epoch, s.recorded + {r.sequence}) && r.sequence !in s.recorded)
            && (!Accepts(s, c, r) ==> s' == s)
            && 0 < consumed <= |input|
  {
  }

  // ---- runs ----

  datatype Event = Packet(input: seq<byte>, closed: bool, cipher: Cipher) | NewReadEpoch

  /** `accepted` lists, in order, the read epoch (counted from the start) and sequence of every
      accepted record. */
  datatype Trace = Trace(reader: Reader, era: nat, accepted: seq<(nat, Sequence)>)

  ghost function Extend(t: Trace, e: Event): Trace {
    match e
    case NewReadEpoch => Trace(Reader((t.reader.epoch + 1) % EPOCHS, {}), t.era + 1, t.accepted)
    case Packet(input, closed, cipher) =>
      var (reader, result, _) := OpenRecord(t.reader, input, closed, cipher);
      if result.Success? || result.AlertReceived?
      then Trace(reader, t.era, t.accepted + [(t.era, DecodeRecord(input).value.sequence)])
      else t.(reader := reader)
  }

  ghost function Run(events: seq<Event>): Trace {
    if events == [] then Trace(Reader(0, {}), 0, []) else Extend(Run(events[..|events| - 1]), events[|events| - 1])
  }

  ghost predicate TraceOk(t: Trace) {
    && t.reader.epoch == t.era % EPOCHS
    && (forall i :: 0 <= i < |t.accepted| ==>
          t.accepted[i].0 <= t.era && t.accepted[i].1 / EPOCH_UNIT == t.accepted[i].0 % EPOCHS)
    && (forall s :: s in t.reader.recorded <==> (t.era, s) in t.accepted)
    && Distinct(t.accepted)
  }

  lemma {:induction false} ExtendKeepsOk(t: Trace, e: Event)
    requires TraceOk(t)
    ensures TraceOk(Extend(t, e))
  {
    hide Discards, DecodeRecord, VersionOk;
    var t' := Extend(t, e);
    if t'.accepted != t.accepted {
      var r := DecodeRecord(e.input).value;
      assert !Discards(t.reader.recorded, r.sequence);
      RecordedIsDiscarded(t.reader.recorded, r.sequence);
      assert t'.accepted[|t.accepted|] == (t.era, r.sequence);
      assert forall s :: (t.era, s) in t'.accepted <==> (t.era, s) in t.accepted || s == r.sequence;
    }
  }

  lemma {:induction false} RecordedIsDiscarded(recorded: set<Sequence>, s: Sequence)
    ensures s in recorded ==> Discards(recorded, s)
  {
  }

  lemma {:induction false} RunIsOk(events: seq<Event>)
    ensures TraceOk(Run(events))
  {
    if events != [] {
      RunIsOk(events[..|events| - 1]);
      ExtendKeepsOk(Run(events[..|events| - 1]), events[|events| - 1]);
    }
  }

  /** In every run no record is accepted twice in an epoch; and until the 16-bit epoch wraps, no
      sequence number (epoch and number) is accepted twice at all. */
  lemma {:induction false} NoReplay(events: seq<Event>, i: nat, j: nat)
    requires i < j < |Run(events).accepted|
    ensures var a := Run(events).accepted;
            && (a[i].0 == a[j].0 ==> a[i].1 != a[j].1)
            && (Run(events).era < EPOCHS ==> a[i].1 != a[j].1)
  {
    hide Extend, Run;
    RunIsOk(events);
    var t := Run(events);
    var a, b := t.accepted[i], t.accepted[j];
    assert a != b;
    if t.era < EPOCHS && a.1 == b.1 {
      SmallEpoch(a.0, t.era);
      SmallEpoch(b.0, t.era);
    }
  }

  lemma {:induction false} SmallEpoch(e: nat, era: nat)
    requires e <= era < EPOCHS
    ensures e % EPOCHS == e
  {
  }

  // ---- in place ----

  class InPlaceReader {
    const window: Window
    var epoch: nat

    ghost predicate Valid()
      reads this, window
    {
      window.Valid()
    }

    ghost function View(): Reader
      reads this, window
    {
      Reader(epoch, window.recorded)
    }

    constructor ()
      ensures Valid() && fresh(window) && View() == Reader(0, {})
    {
      window := new Window();
      epoch := 0;
    }

    method NextEpoch()
      requires Valid()
      modifies this, window
      ensures Valid() && View() == Reader((old(epoch) + 1) % EPOCHS, {})
    {
      epoch := (epoch + 1) % EPOCHS;
      window.Reset();
    }

    method Open(input: seq<byte>, closed: bool, c: Cipher) returns (result: Result, consumed: nat)
      requires Valid()
      modifies window
      ensures Valid() && (View(), result, consumed) == OpenRecord(old(View()), input, closed, c)
    {
      hide Discards, Represents, DecodeRecord;
      if closed {
        return CloseNotify, 0;
      }
      if |input| == 0 {
        return Partial, 0;
      }
      var decoded := DecodeRecord(input);
      if decoded == None {
        return Discard, |input|;
      }
      var r := decoded.value;
      if !VersionOk(c, r.version) {
        return Discard, |input|;
      }
      consumed := HEADER_LENGTH + |r.body|;
      if r.sequence / EPOCH_UNIT != epoch {
        return Discard, consumed;
      }
      var replayed := window.ShouldDiscard(r.sequence);
      if replayed {
        return Discard, consumed;
      }
      var plaintext := c.open(r);
      if plaintext == None {
        return Discard, consumed;
      }
      if |plaintext.value| > MAX_PLAIN_LENGTH {
        return RecordOverflow, consumed;
      }
      window.Record(r.sequence);
      result := if r.contentType == ALERT then AlertReceived(plaintext.value)
          else Success(r.contentType, plaintext.value);
    }
  }
}
