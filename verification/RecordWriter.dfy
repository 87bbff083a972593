/** Numbering of sealed DTLS records (RFC 6347, section 4.1): epochs, 48-bit sequence numbers,
    and retransmission under the previous epoch. */
module RecordWriter {
  import opened Wire
  import opened RecordNonce

  const NUMBERS: nat := 0x1_0000_0000_0000
  const RECORD_HEADER_LENGTH: nat := 13

  datatype UseEpoch = PreviousEpoch | CurrentEpoch

  datatype Numbers = Numbers(epoch: nat, next: nat, lastNext: nat)

  const INITIAL: Numbers := Numbers(0, 0, 0)

  /** The epoch and number the AEAD is given for the next record. */
  function NextPair(s: Numbers, use: UseEpoch): (nat, nat)
    requires use.PreviousEpoch? ==> s.epoch >= 1
  {
    if use.PreviousEpoch? then (s.epoch - 1, s.lastNext) else (s.epoch, s.next)
  }

  /** dtls_seal_record's numbering. `ciphertextLen` is none when the AEAD fails; the number is
      consumed before the length is checked, and a record whose number was the last one is lost. */
  function SealStep(s: Numbers, use: UseEpoch, ciphertextLen: Option<nat>): (r: (Numbers, Option<(nat, nat)>))
    requires use.PreviousEpoch? ==> s.epoch >= 1
  {
    var next := (NextPair(s, use).1 + 1) % NUMBERS;
    var s' := if use.PreviousEpoch? then s.(lastNext := next) else s.(next := next);
    if ciphertextLen.None? then (s, None)
    else if next == 0 || ciphertextLen.value >= 0x1_0000 then (s', None)
    else (s', Some(NextPair(s, use)))
  }

  /** dtls1_set_write_state. */
  function ChangeWriteEpoch(s: Numbers): Numbers {
    Numbers((s.epoch + 1) % EPOCHS, 0, s.next)
  }

  // ---- runs ----

  datatype Event = Seal(use: UseEpoch, ciphertextLen: Option<nat>) | ChangeEpoch

  /** A run so far: the program's numbers, how many records the AEAD has sealed in each epoch
      since the start, and two lists of (epoch, number) pairs: `uses` has the pair of every record
      the AEAD sealed, `pairs` of those that came out. `useLog` and `log` name the same records by
      unbounded epoch and position. */
  datatype Trace = Trace(numbers: Numbers, counts: seq<nat>, uses: seq<(nat, nat)>, useLog: seq<(nat, nat)>,
                         pairs: seq<(nat, nat)>, log: seq<(nat, nat)>)

  function Lane(t: Trace, use: UseEpoch): int {
    if use.PreviousEpoch? then |t.counts| - 2 else |t.counts| - 1
  }

  predicate Allowed(t: Trace, e: Event) {
    e.Seal? && e.use.PreviousEpoch? ==> t.numbers.epoch >= 1
  }

  function Extend(t: Trace, e: Event): Trace {
    if !Allowed(t, e) then t
    else match e
      case ChangeEpoch => t.(numbers := ChangeWriteEpoch(t.numbers), counts := t.counts + [0])
      case Seal(use, ciphertextLen) =>
        var (numbers, sealed) := SealStep(t.numbers, use, ciphertextLen);
        var lane := Lane(t, use);
        if ciphertextLen.None? || !(0 <= lane < |t.counts|) then t.(numbers := numbers)
        else
          var name := (lane, t.counts[lane]);
          Trace(numbers, t.counts[lane := t.counts[lane] + 1],
                t.uses + [NextPair(t.numbers, use)], t.useLog + [name],
                if sealed.Some? then t.pairs + [sealed.value] else t.pairs,
                if sealed.Some? then t.log + [name] else t.log)
  }

  function Run(events: seq<Event>): Trace {
    if events == [] then Trace(INITIAL, [0], [], [], [], [])
    else Extend(Run(events[..|events| - 1]), events[|events| - 1])
  }

  function Name(record: (nat, nat)): (nat, nat) {
    (record.0 % 0x1_0000, record.1 % 0x1_0000_0000_0000)
  }

  /** The record `r` is one the counts account for. */
  ghost predicate Counted(counts: seq<nat>, r: (nat, nat)) {
    r.0 < |counts| && r.1 < counts[r.0]
  }

  /** The pairs are those of the logged records, no record twice. */
  ghost predicate Logged(counts: seq<nat>, pairs: seq<(nat, nat)>, log: seq<(nat, nat)>) {
    && |pairs| == |log|
    && (forall k :: 0 <= k < |log| ==> pairs[k] == Name(log[k]) && Counted(counts, log[k]))
    && Distinct(log)
  }

  ghost predicate NumbersOk(t: Trace) {
    && |t.counts| >= 1
    && t.numbers.epoch == (|t.counts| - 1) % EPOCHS
    && t.numbers.next == t.counts[|t.counts| - 1] % NUMBERS
    && (|t.counts| >= 2 ==> t.numbers.lastNext == t.counts[|t.counts| - 2] % NUMBERS)
  }

  ghost predicate TraceOk(t: Trace) {
    NumbersOk(t) && Logged(t.counts, t.uses, t.useLog) && Logged(t.counts, t.pairs, t.log)
  }

  lemma {:induction false} NextNumber(count: nat)
    ensures (count + 1) % NUMBERS == (count % NUMBERS + 1) % NUMBERS
    ensures (count % NUMBERS + 1) % NUMBERS == 0 <==> count % NUMBERS == NUMBERS - 1
  {
  }

  lemma {:induction false} PreviousOf(epochs: nat)
    requires epochs % EPOCHS >= 1
    ensures epochs >= 1 && (epochs - 1) % EPOCHS == epochs % EPOCHS - 1
  {
  }

  lemma {:induction false} CountedGrows(counts: seq<nat>, lane: nat, r: (nat, nat))
    requires lane < |counts| && Counted(counts, r)
    ensures Counted(counts + [0], r) && Counted(counts[lane := counts[lane] + 1], r)
    ensures r != (lane, counts[lane])
  {
  }

  lemma {:induction false} LoggedGrows(counts: seq<nat>, pairs: seq<(nat, nat)>, log: seq<(nat, nat)>, lane: nat)
    requires lane < |counts| && Logged(counts, pairs, log)
    ensures Logged(counts + [0], pairs, log)
    ensures var r, counts' := (lane, counts[lane]), counts[lane := counts[lane] + 1];
            Logged(counts', pairs, log) && Logged(counts', pairs + [Name(r)], log + [r])
  {
    hide Counted, Name;
    forall k | 0 <= k < |log|
      ensures Counted(counts + [0], log[k]) && Counted(counts[lane := counts[lane] + 1], log[k])
      ensures log[k] != (lane, counts[lane])
    {
      CountedGrows(counts, lane, log[k]);
    }
    assert Counted(counts[lane := counts[lane] + 1], (lane, counts[lane])) by {
      NewIsCounted(counts, lane);
    }
  }

  lemma {:induction false} NewIsCounted(counts: seq<nat>, lane: nat)
    requires lane < |counts|
    ensures Counted(counts[lane := counts[lane] + 1], (lane, counts[lane]))
  {
  }

  lemma {:induction false} ChangeKeepsOk(t: Trace)
    requires TraceOk(t)
    ensures TraceOk(Extend(t, ChangeEpoch))
  {
    hide Logged;
    LoggedGrows(t.counts, t.uses, t.useLog, 0);
    LoggedGrows(t.counts, t.pairs, t.log, 0);
  }

  /** What sealing one record does to the numbers and to the counts. */
  lemma {:induction false} SealNumbers(t: Trace, use: UseEpoch, ciphertextLen: Option<nat>)
    requires NumbersOk(t) && Allowed(t, Seal(use, ciphertextLen)) && ciphertextLen.Some?
    ensures NumbersOk(Extend(t, Seal(use, ciphertextLen)))
    ensures 0 <= Lane(t, use) < |t.counts|
    ensures var r := (Lane(t, use), t.counts[Lane(t, use)]);
            && NextPair(t.numbers, use) == Name(r)
            && (SealStep(t.numbers, use, ciphertextLen).1.Some?
                <==> r.1 % NUMBERS != NUMBERS - 1 && ciphertextLen.value < 0x1_0000)
  {
    hide Name;
    if use.PreviousEpoch? {
      PreviousOf(|t.counts| - 1);
    }
    NextNumber(t.counts[Lane(t, use)]);
    NameIs((Lane(t, use), t.counts[Lane(t, use)]));
  }

  lemma {:induction false} NameIs(r: (nat, nat))
    ensures Name(r) == (r.0 % EPOCHS, r.1 % NUMBERS)
  {
  }

  lemma {:induction false} SealKeepsOk(t: Trace, use: UseEpoch, ciphertextLen: Option<nat>)
    requires TraceOk(t) && Allowed(t, Seal(use, ciphertextLen)) && ciphertextLen.Some?
    ensures TraceOk(Extend(t, Seal(use, ciphertextLen)))
  {
    SealNumbers(t, use, ciphertextLen);
    hide Logged, NumbersOk, Name;
    LoggedGrows(t.counts, t.uses, t.useLog, Lane(t, use));
    LoggedGrows(t.counts, t.pairs, t.log, Lane(t, use));
  }

  lemma {:induction false} ExtendKeepsOk(t: Trace, e: Event)
    requires TraceOk(t)
    ensures TraceOk(Extend(t, e))
  {
    hide TraceOk;
    if Allowed(t, e) {
      match e
      case ChangeEpoch => ChangeKeepsOk(t);
      case Seal(use, ciphertextLen) =>
        if ciphertextLen.Some? {
          SealKeepsOk(t, use, ciphertextLen);
        }
    }
  }

  lemma {:induction false} RunIsOk(events: seq<Event>)
    ensures TraceOk(Run(events))
  {
    if events != [] {
      RunIsOk(events[..|events| - 1]);
      ExtendKeepsOk(Run(events[..|events| - 1]), events[|events| - 1]);
    }
  }

  /** No record's ciphertext reached 2^16 bytes. */
  ghost predicate AllShort(events: seq<Event>) {
    forall e :: e in events && e.Seal? && e.ciphertextLen.Some? ==> e.ciphertextLen.value < 0x1_0000
  }

  /** Then every counted record came out, except those whose number was the last one. */
  lemma {:induction false} AllLogged(events: seq<Event>, r: (nat, nat))
    requires Counted(Run(events).counts, r)
    ensures r in Run(events).useLog
    ensures AllShort(events) && r.1 % NUMBERS != NUMBERS - 1 ==> r in Run(events).log
  {
    if events != [] {
      var t, e := Run(events[..|events| - 1]), events[|events| - 1];
      RunIsOk(events[..|events| - 1]);
      if Counted(t.counts, r) {
        AllLogged(events[..|events| - 1], r);
      } else {
        assert Allowed(t, e) && e.Seal?;
        SealNumbers(t, e.use, e.ciphertextLen);
        assert e in events;
        assert r == (Lane(t, e.use), t.counts[Lane(t, e.use)]);
      }
    }
  }

  /** No epoch has sealed more records than there are sequence numbers. */
  ghost predicate WithinNumbers(counts: seq<nat>) {
    forall lane :: 0 <= lane < |counts| ==> counts[lane] <= NUMBERS
  }

  lemma {:induction false} SameNameSameRecord(counts: seq<nat>, a: (nat, nat), b: (nat, nat))
    requires |counts| <= EPOCHS && WithinNumbers(counts)
    requires Counted(counts, a) && Counted(counts, b) && Name(a) == Name(b)
    ensures a == b
  {
  }

  lemma {:induction false} NamesDistinct(counts: seq<nat>, pairs: seq<(nat, nat)>, log: seq<(nat, nat)>)
    requires |counts| <= EPOCHS && WithinNumbers(counts) && Logged(counts, pairs, log)
    ensures Distinct(pairs)
  {
    forall i, j | 0 <= i < j < |pairs|
      ensures pairs[i] != pairs[j]
    {
      if pairs[i] == pairs[j] {
        SameNameSameRecord(counts, log[i], log[j]);
      }
    }
  }

  /** Two records of an epoch that are 2^48 apart have the same pair. */
  lemma {:induction false} NamesRepeat(counts: seq<nat>, pairs: seq<(nat, nat)>, log: seq<(nat, nat)>, lane: nat)
    requires Logged(counts, pairs, log) && (lane, 0) in log && (lane, NUMBERS) in log
    ensures !Distinct(pairs)
  {
    var i :| 0 <= i < |log| && log[i] == (lane, 0);
    var j :| 0 <= j < |log| && log[j] == (lane, NUMBERS);
    assert pairs[i] == pairs[j];
  }

  /** Until the epoch counter wraps, the AEAD is never given an (epoch, number) pair twice exactly
      as long as no epoch has sealed more than 2^48 records. */
  lemma {:induction false} UsesDistinctIffNoOverflow(events: seq<Event>)
    requires |Run(events).counts| <= EPOCHS
    ensures Distinct(Run(events).uses) <==> WithinNumbers(Run(events).counts)
  {
    var t := Run(events);
    RunIsOk(events);
    if WithinNumbers(t.counts) {
      NamesDistinct(t.counts, t.uses, t.useLog);
    } else {
      var lane: nat :| lane < |t.counts| && t.counts[lane] > NUMBERS;
      AllLogged(events, (lane, 0));
      AllLogged(events, (lane, NUMBERS));
      NamesRepeat(t.counts, t.uses, t.useLog, lane);
    }
  }

  /** The same of the records that came out; they repeat a pair after an overflow if every
      ciphertext was below 2^16 bytes. */
  lemma {:induction false} PairsDistinctIffNoOverflow(events: seq<Event>)
    requires |Run(events).counts| <= EPOCHS
    ensures WithinNumbers(Run(events).counts) ==> Distinct(Run(events).pairs)
    ensures AllShort(events) && Distinct(Run(events).pairs) ==> WithinNumbers(Run(events).counts)
  {
    var t := Run(events);
    RunIsOk(events);
    if WithinNumbers(t.counts) {
      NamesDistinct(t.counts, t.pairs, t.log);
    } else if AllShort(events) {
      var lane: nat :| lane < |t.counts| && t.counts[lane] > NUMBERS;
      AllLogged(events, (lane, 0));
      AllLogged(events, (lane, NUMBERS));
      NamesRepeat(t.counts, t.pairs, t.log, lane);
    }
  }

  lemma {:induction false} NameFits(r: (nat, nat))
    ensures Name(r).0 < Pow256(2) && Name(r).1 < Pow256(6)
  {
    Widths();
    assert Pow256(4) == 256 * Pow256(3) && Pow256(5) == 256 * Pow256(4) && Pow256(6) == 256 * Pow256(5);
  }

  /** So under one key no nonce is used twice before an overflow or epoch wrap: neither by two
      records the AEAD sealed, whatever became of them, nor by two that came out. */
  lemma {:induction false} NoncesDistinct(events: seq<Event>, c: AeadContext, random: seq<byte>, s: seq<(nat, nat)>,
      i: nat, j: nat)
    requires |Run(events).counts| <= EPOCHS && WithinNumbers(Run(events).counts)
    requires ContextOk(c) && !c.randomVariableNonce && |random| == c.variableNonceLen
    requires (s == Run(events).uses || s == Run(events).pairs) && i < j < |s|
    ensures SealNonce(c, SequenceBytes(s[i].0, s[i].1), random) != SealNonce(c, SequenceBytes(s[j].0, s[j].1), random)
  {
    var t := Run(events);
    RunIsOk(events);
    UsesDistinctIffNoOverflow(events);
    PairsDistinctIffNoOverflow(events);
    var log := if s == t.uses then t.useLog else t.log;
    assert Logged(t.counts, s, log);
    NameFits(log[i]);
    NameFits(log[j]);
    SequenceBytesInjective(s[i].0, s[i].1, s[j].0, s[j].1);
    DistinctNonces(c, SequenceBytes(s[i].0, s[i].1), SequenceBytes(s[j].0, s[j].1), random);
  }

  /** The state just before an overflow: the next seal fails and wraps the number to zero, so
      the one after it reuses the pair of the epoch's first record. */
  lemma {:induction false} OverflowReusesZero(epoch: nat, lastNext: nat, len: nat)
    requires len < 0x1_0000
    ensures var (s, sealed) := SealStep(Numbers(epoch, NUMBERS - 1, lastNext), CurrentEpoch, Some(len));
            sealed == None && SealStep(s, CurrentEpoch, Some(len)).1 == Some((epoch, 0))
            && SealStep(Numbers(epoch, 0, lastNext), CurrentEpoch, Some(len)).1 == Some((epoch, 0))
  {
  }

  // ---- the in-place record layer ----

  /** The lengths an AEAD adds; `suffixLen` may depend on the plaintext's length. */
  datatype AeadLengths = AeadLengths(explicitNonceLen: nat, maxSuffix: nat, suffixLen: nat -> nat)
  {
    ghost predicate Valid() { forall n :: suffixLen(n) <= maxSuffix }
    function MaxSealOverhead(): nat { RECORD_HEADER_LENGTH + explicitNonceLen + maxSuffix }
    function PrefixLen(): nat { RECORD_HEADER_LENGTH + explicitNonceLen }
  }

  const NULL_CIPHER: AeadLengths := AeadLengths(0, 0, n => 0)

  datatype Sealed = Sealed(epoch: nat, number: nat, contentType: nat, payload: seq<byte>, wireLen: nat)

  /** The ciphertext of a record, or none when it is not made: no room for the header or for the
      sealed record, or the AEAD fails. */
  function Ciphertext(lengths: AeadLengths, maxOut: nat, payloadLen: nat, inPlace: bool, aeadOk: bool): (r: Option<nat>)
    ensures r.Some? ==> RECORD_HEADER_LENGTH + r.value <= maxOut && payloadLen <= r.value
  {
    var len := lengths.explicitNonceLen + payloadLen + lengths.suffixLen(payloadLen);
    if (inPlace && maxOut < lengths.PrefixLen()) || maxOut < RECORD_HEADER_LENGTH then None
    else if !aeadOk || len > maxOut - RECORD_HEADER_LENGTH then None
    else Some(len)
  }

  /** dtls_seal_record as a value: the numbers afterwards and the record. */
  function SealOutcome(s: Numbers, lengths: AeadLengths, maxOut: nat, contentType: nat, payload: seq<byte>,
      inPlace: bool, use: UseEpoch, aeadOk: bool): (r: (Numbers, Option<Sealed>))
    requires use.PreviousEpoch? ==> s.epoch >= 1
    ensures r.0.epoch == s.epoch
    ensures r.1.Some? ==> RECORD_HEADER_LENGTH + |payload| <= r.1.value.wireLen <= maxOut
  {
    var len := Ciphertext(lengths, maxOut, |payload|, inPlace, aeadOk);
    match SealStep(s, use, len)
    case (s', None) => (s', None)
    case (s', Some((epoch, number))) => (s', Some(Sealed(epoch, number, contentType, payload,
        RECORD_HEADER_LENGTH + len.value)))
  }

  /** With room for the worst case and a working AEAD, sealing fails exactly at the last number or
      when the ciphertext reaches 2^16 bytes. */
  lemma {:induction false} SealFailsIff(s: Numbers, lengths: AeadLengths, maxOut: nat, contentType: nat,
      payload: seq<byte>, inPlace: bool, use: UseEpoch)
    requires (use.PreviousEpoch? ==> s.epoch >= 1) && lengths.Valid()
    requires |payload| + lengths.MaxSealOverhead() <= maxOut
    ensures var number := if use.PreviousEpoch? then s.lastNext else s.next;
            SealOutcome(s, lengths, maxOut, contentType, payload, inPlace, use, true).1.None?
            <==> (number + 1) % NUMBERS == 0
                 || lengths.explicitNonceLen + |payload| + lengths.suffixLen(|payload|) >= 0x1_0000
  {
  }

  class Writer {
    var numbers: Numbers
    var aead: AeadLengths
    var lastAead: AeadLengths

    ghost predicate Valid()
      reads this
    {
      aead.Valid() && lastAead.Valid() && numbers.epoch < EPOCHS
    }

    constructor ()
      ensures Valid() && numbers == INITIAL
    {
      numbers, aead, lastAead := INITIAL, NULL_CIPHER, NULL_CIPHER;
    }

    function Lengths(use: UseEpoch): AeadLengths
      reads this
    {
      if use.PreviousEpoch? then lastAead else aead
    }

    method SetWriteState(newAead: AeadLengths)
      requires Valid() && newAead.Valid()
      modifies this
      ensures Valid() && numbers == ChangeWriteEpoch(old(numbers))
      ensures aead == newAead && lastAead == old(aead)
    {
      numbers := Numbers((numbers.epoch + 1) % EPOCHS, 0, numbers.next);
      lastAead := aead;
      aead := newAead;
    }

    /** dtls_seal_record; `aeadOk` is false when the AEAD itself fails. */
    method SealRecord(maxOut: nat, contentType: nat, payload: seq<byte>, inPlace: bool, use: UseEpoch, aeadOk: bool)
      returns (sealed: Option<Sealed>)
      requires Valid() && (use.PreviousEpoch? ==> numbers.epoch >= 1)
      modifies this`numbers
      ensures Valid() && numbers.epoch == old(numbers.epoch)
      ensures (numbers, sealed) == SealOutcome(old(numbers), Lengths(use), maxOut, contentType, payload, inPlace, use,
          aeadOk)
      ensures sealed.Some? ==>
                var r := sealed.value;
                && r.contentType == contentType && r.payload == payload
                && r.epoch == (if use.PreviousEpoch? then old(numbers.epoch) - 1 else old(numbers.epoch))
                && RECORD_HEADER_LENGTH + |payload| <= r.wireLen <= maxOut
    {
      var lengths := Lengths(use);
      var number := if use.PreviousEpoch? then numbers.lastNext else numbers.next;
      if (inPlace && maxOut < lengths.PrefixLen()) || maxOut < RECORD_HEADER_LENGTH {
        return None;
      }
      var ciphertextLen := lengths.explicitNonceLen + |payload| + lengths.suffixLen(|payload|);
      if !aeadOk || ciphertextLen > maxOut - RECORD_HEADER_LENGTH {
        return None;
      }
      var next := (number + 1) % NUMBERS;
      numbers := if use.PreviousEpoch? then numbers.(lastNext := next) else numbers.(next := next);
      if next == 0 || ciphertextLen >= 0x1_0000 {
        return None;
      }
      var epoch := if use.PreviousEpoch? then numbers.epoch - 1 else numbers.epoch;
      return Some(Sealed(epoch, number, contentType, payload, RECORD_HEADER_LENGTH + ciphertextLen));
    }
  }
}
