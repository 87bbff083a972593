/** The DTLS record layer from end to end: where each byte of a header and of the additional data
    stands, and that a sealed record is opened by the reader it is meant for (RFC 6347, section
    4.1; RFC 5246, section 6.2.3.3). */
module RecordLayer {
  import opened Wire
  import opened RecordNonce
  import opened ReplayWindow
  import R = RecordReader
  import M = MessageBuffer

  // ---- big-endian numbers ----

  lemma {:induction false} TwoBytes(v: nat)
    ensures ToBE(v, 2) == [v / 256 % 256, v % 256]
  {
    assert ToBE(v / 256, 1) == ToBE(v / 256 / 256, 0) + [v / 256 % 256] == [v / 256 % 256];
  }

  lemma {:induction false} ThreeBytes(v: nat)
    ensures ToBE(v, 3) == [v / 65536 % 256, v / 256 % 256, v % 256]
  {
    TwoBytes(v / 256);
    assert v / 256 / 256 == v / 65536;
  }

  lemma {:induction false} FromBEJoin(a: seq<byte>, b: seq<byte>)
    ensures FromBE(a + b) == FromBE(a) * Pow256(|b|) + FromBE(b)
    decreases |b|
  {
    if b == [] {
      assert a + b == a;
    } else {
      var front := b[..|b| - 1];
      assert (a + b)[..|a + b| - 1] == a + front;
      FromBEJoin(a, front);
      MulAssociates(FromBE(a), Pow256(|front|));
    }
  }

  lemma {:induction false} MulAssociates(x: nat, y: nat)
    ensures x * y * 256 == x * (256 * y)
  {
  }

  // ---- where the bytes stand ----

  /** The 16-bit and 24-bit numbers that begin at byte `i`. */
  function At16(s: seq<byte>, i: nat): nat
    requires i + 2 <= |s|
  {
    256 * (s[i] as int) + (s[i + 1] as int)
  }

  function At24(s: seq<byte>, i: nat): nat
    requires i + 3 <= |s|
  {
    256 * At16(s, i) + (s[i + 2] as int)
  }

  /** The twelve bytes of a handshake fragment's header: type, 24-bit length, 16-bit number, 24-bit
      offset and 24-bit fragment length, each with its highest byte first. */
  lemma {:induction false} FragmentHeaderLayout(h: HmHeader)
    requires HeaderFits(h)
    ensures var s := HeaderBytes(h);
            && s[0] == h.msgType && At24(s, 1) == h.msgLen && At16(s, 4) == h.seqNum
            && At24(s, 6) == h.fragOff && At24(s, 9) == h.fragLen
  {
    assert ToBE(h.msgType, 1) == ToBE(h.msgType / 256, 0) + [h.msgType % 256] == [h.msgType];
    ThreeBytes(h.msgLen);
    TwoBytes(h.seqNum);
    ThreeBytes(h.fragOff);
    ThreeBytes(h.fragLen);
    Digits(h.msgLen);
    Digits(h.fragOff);
    Digits(h.fragLen);
  }

  lemma {:induction false} Digits(v: nat)
    requires v < 0x100_0000
    ensures v / 65536 % 256 * 65536 + v / 256 % 256 * 256 + v % 256 == v
  {
    assert v / 256 / 256 == v / 65536;
  }

  /** The additional data, byte by byte: sequence number, content type, version, length. */
  lemma {:induction false} AdditionalDataLayout(c: AeadContext, contentType: byte, version: nat, seqnum: seq<byte>,
      plaintextLen: nat)
    requires |seqnum| == 8 && version < 0x1_0000
    ensures var ad := AdditionalData(c, contentType, version, seqnum, plaintextLen);
            if c.omitAd then ad == []
            else
              && |ad| == 13 - (if c.omitVersionInAd then 2 else 0) - (if c.omitLengthInAd then 2 else 0)
              && ad[..8] == seqnum && ad[8] == contentType
              && (!c.omitVersionInAd ==> ad[9] == version / 256 && ad[10] == version % 256)
              && (!c.omitLengthInAd ==>
                    ad[|ad| - 2] == plaintextLen / 256 % 256 && ad[|ad| - 1] == plaintextLen % 256)
  {
    TwoBytes(version);
    TwoBytes(plaintextLen);
    hide ToBE;
    assert (seqnum + [contentType])[..8] == seqnum;
  }

  /** Two records have the same additional data if and only if they agree in sequence number and
      content type, in the version unless it is left out, and in the 16-bit length unless it is. */
  lemma {:induction false} SameAdditionalDataIff(c: AeadContext, t: byte, v: nat, s: seq<byte>, n: nat, t': byte,
      v': nat, s': seq<byte>, n': nat)
    requires !c.omitAd && |s| == 8 && |s'| == 8 && v < 0x1_0000 && v' < 0x1_0000
    ensures AdditionalData(c, t, v, s, n) == AdditionalData(c, t', v', s', n')
            <==> s == s' && t == t' && (c.omitVersionInAd || v == v')
                 && (c.omitLengthInAd || n % 0x1_0000 == n' % 0x1_0000)
  {
    var a, a' := AdditionalData(c, t, v, s, n), AdditionalData(c, t', v', s', n');
    AdditionalDataLayout(c, t, v, s, n);
    AdditionalDataLayout(c, t', v', s', n');
    TwoBytes(n);
    TwoBytes(n');
    hide ToBE;
    if a == a' {
      assert a[..8] == a'[..8];
    }
    LowHalf(n);
    LowHalf(n');
  }

  lemma {:induction false} LowHalf(n: nat)
    ensures n % 0x1_0000 == n / 256 % 256 * 256 + n % 256
  {
  }

  /** Each bit of the exclusive or is the sum of the two bits modulo 2. */
  lemma {:induction false} XorBit(a: nat, b: nat, n: nat, k: nat)
    requires k < n
    ensures XorBits(a, b, n) / Pow2(k) % 2 == (a / Pow2(k) % 2 + b / Pow2(k) % 2) % 2
  {
    if k == 0 {
      Halve(XorBits(a / 2, b / 2, n - 1), (a % 2 + b % 2) % 2);
      assert Pow2(0) == 1;
    } else {
      Halve(XorBits(a / 2, b / 2, n - 1), (a % 2 + b % 2) % 2);
      XorBit(a / 2, b / 2, n - 1, k - 1);
      DivTwice(a, k);
      DivTwice(b, k);
      DivTwice(XorBits(a, b, n), k);
    }
  }

  lemma {:induction false} DivTwice(x: nat, k: nat)
    requires k > 0
    ensures x / Pow2(k) == x / 2 / Pow2(k - 1)
  {
    var p := Pow2(k - 1);
    assert Pow2(k) == 2 * p;
    DivProduct(x, p);
  }

  lemma {:induction false} DivProduct(x: nat, p: nat)
    requires p > 0
    ensures x / (2 * p) == x / 2 / p
  {
    var q, r := x / 2 / p, x / 2 % p;
    assert x / 2 == q * p + r;
    assert x == 2 * (x / 2) + x % 2;
    assert x == q * (2 * p) + (2 * r + x % 2) by {
      assert 2 * (q * p) == q * (2 * p);
    }
    QuotientUnique(x, 2 * p, q, 2 * r + x % 2);
  }

  lemma {:induction false} Factored(a: int, b: int, d: int)
    ensures (a - b) * d == a * d - b * d && -(a - b) * d == b * d - a * d
  {
  }

  lemma {:induction false} AtLeastOnce(k: int, d: nat)
    requires k >= 1
    ensures k * d >= d
  {
    Factored(k, 1, d);
    if k > 1 {
      AtLeastOnce(k - 1, d);
    }
  }

  lemma {:induction false} QuotientUnique(x: nat, d: nat, q: nat, r: nat)
    requires d > 0 && x == q * d + r && r < d
    ensures x / d == q
  {
    var k := q - x / d;
    Factored(q, x / d, d);
    if k >= 1 {
      AtLeastOnce(k, d);
    } else if k <= -1 {
      AtLeastOnce(-k, d);
    }
  }

  /** The nonce: the fixed part in front of the variable one, or the fixed nonce with the variable
      part exclusive-ored into its last bytes. */
  lemma {:induction false} NonceLayout(c: AeadContext, seqnum: seq<byte>, random: seq<byte>)
    requires ContextOk(c) && |seqnum| == 8 && |random| == c.variableNonceLen
    ensures var nonce := SealNonce(c, seqnum, random);
            var variable := if c.randomVariableNonce then random else seqnum;
            var at := |c.fixedNonce| - 8;
            if !c.xorFixedNonce then nonce == c.fixedNonce + variable
            else
              && |nonce| == |c.fixedNonce| && at >= 0
              && (forall i :: 0 <= i < at ==> nonce[i] == Xor(0, c.fixedNonce[i]))
              && (forall i :: at <= i < |nonce| ==> nonce[i] == Xor(seqnum[i - at], c.fixedNonce[i]))
  {
    hide Xor;
  }

  /** What the cipher suites ask for: AES-GCM sends eight nonce bytes with each record, ChaCha20 and
      TLS 1.3 exclusive-or the sequence number into a nonce that is not sent, CBC suites send a
      random one; additional data are left out only in TLS 1.3, their length only for CBC suites,
      and their version only in SSL 3.0. */
  lemma {:induction false} CreatedForSuite(kind: CipherKind, tls13: bool, ssl3: bool, fixedIv: seq<byte>,
      aeadNonceLen: nat, tagOverhead: nat)
    requires kind.AesGcm? ==> aeadNonceLen == 12 && |fixedIv| == (if tls13 then 12 else 4)
    requires kind.ChaCha20Poly1305? ==> aeadNonceLen == 12 && |fixedIv| == 12
    requires kind.StatefulMac? ==> !tls13 && aeadNonceLen <= MAX_NONCE_LENGTH
    ensures var c := Create(kind, tls13, ssl3, fixedIv, aeadNonceLen, tagOverhead);
            && (c.omitAd <==> tls13) && (c.omitLengthInAd <==> kind.StatefulMac?)
            && (c.omitVersionInAd <==> kind.StatefulMac? && ssl3)
            && (c.xorFixedNonce <==> tls13 || kind.ChaCha20Poly1305?)
            && (c.variableNonceInRecord <==> !c.xorFixedNonce)
            && (c.randomVariableNonce <==> kind.StatefulMac?)
            && (!kind.StatefulMac? ==> c.variableNonceLen == 8 && c.fixedNonce == fixedIv)
            && ContextOk(c)
  {
  }

  // ---- records as bytes ----

  /** The record dtls_seal_record puts together. */
  function RecordBytes(r: R.Record): seq<byte> {
    ToBE(r.contentType, 1) + ToBE(r.version, 2) + ToBE(r.sequence, 8) + ToBE(|r.body|, 2) + r.body
  }

  predicate RecordFits(r: R.Record) {
    r.contentType < 0x100 && r.version < 0x1_0000 && |r.body| <= 16704
  }

  /** The parts of a record header, by position. */
  lemma {:induction false} RecordParts(a: seq<byte>, b: seq<byte>, c: seq<byte>, d: seq<byte>, rest: seq<byte>)
    requires |a| == 1 && |b| == 2 && |c| == 8 && |d| == 2
    ensures var s := a + b + c + d + rest;
            s[..1] == a && s[1..3] == b && s[3..11] == c && s[11..13] == d && s[13..] == rest
  {
  }

  /** A record is decoded as it was put together, whatever follows it. */
  lemma {:induction false} RecordRoundTrip(r: R.Record, rest: seq<byte>)
    requires RecordFits(r)
    ensures R.DecodeRecord(RecordBytes(r) + rest) == Some(r)
  {
    hide ToBE, FromBE;
    Widths();
    R.EightBytes();
    DecodedIsEncoded(r.contentType, 1);
    DecodedIsEncoded(r.version, 2);
    DecodedIsEncoded(r.sequence, 8);
    DecodedIsEncoded(|r.body|, 2);
    var input := RecordBytes(r) + rest;
    assert input == ToBE(r.contentType, 1) + ToBE(r.version, 2) + ToBE(r.sequence, 8) + ToBE(|r.body|, 2)
        + (r.body + rest);
    RecordParts(ToBE(r.contentType, 1), ToBE(r.version, 2), ToBE(r.sequence, 8), ToBE(|r.body|, 2), r.body + rest);
    assert input[13..13 + |r.body|] == r.body by {
      assert input[13..][..|r.body|] == r.body;
    }
  }

  /** A body of more than 16704 bytes is refused, and so is a record that is cut short. */
  lemma {:induction false} LongOrCutIsRefused(r: R.Record, rest: seq<byte>, n: nat)
    requires r.contentType < 0x100 && r.version < 0x1_0000 && |r.body| < 0x1_0000
    ensures |r.body| > 16704 ==> R.DecodeRecord(RecordBytes(r) + rest) == None
    ensures n < |RecordBytes(r)| ==> R.DecodeRecord(RecordBytes(r)[..n]) == None
  {
    hide ToBE, FromBE;
    Widths();
    DecodedIsEncoded(|r.body|, 2);
    RecordParts(ToBE(r.contentType, 1), ToBE(r.version, 2), ToBE(r.sequence, 8), ToBE(|r.body|, 2), r.body);
    assert (RecordBytes(r) + rest)[11..13] == RecordBytes(r)[11..13];
    if 13 <= n < |RecordBytes(r)| {
      assert RecordBytes(r)[..n][11..13] == RecordBytes(r)[11..13];
    }
  }

  /** Whatever decodes as a record begins with that record put together. */
  lemma {:induction false} DecodedRecordPrints(input: seq<byte>)
    ensures match R.DecodeRecord(input)
            case None => true
            case Some(r) =>
              RecordFits(r) && 13 + |r.body| <= |input| && RecordBytes(r) + input[13 + |r.body|..] == input
  {
    if R.DecodeRecord(input).Some? {
      hide ToBE;
      var r := R.DecodeRecord(input).value;
      Widths();
      EncodedIsDecoded(input[..1]);
      EncodedIsDecoded(input[1..3]);
      EncodedIsDecoded(input[3..11]);
      EncodedIsDecoded(input[11..13]);
      assert |r.body| == FromBE(input[11..13]);
      hide FromBE;
      InParts(input, 13 + |r.body|);
    }
  }

  lemma {:induction false} InParts(s: seq<byte>, n: nat)
    requires 13 <= n <= |s|
    ensures s[..1] + s[1..3] + s[3..11] + s[11..13] + s[13..n] + s[n..] == s
  {
  }

  /** The thirteen bytes of a record header: type, version, epoch, 48-bit number and length. */
  lemma {:induction false} RecordHeaderLayout(r: R.Record)
    requires RecordFits(r)
    ensures var s := RecordBytes(r);
            && |s| == 13 + |r.body| && s[0] == r.contentType && At16(s, 1) == r.version
            && FromBE(s[3..11]) == r.sequence && At16(s, 11) == |r.body| && s[13..] == r.body
  {
    assert ToBE(r.contentType, 1) == ToBE(r.contentType / 256, 0) + [r.contentType % 256] == [r.contentType];
    TwoBytes(r.version);
    TwoBytes(|r.body|);
    R.EightBytes();
    DecodedIsEncoded(r.sequence, 8);
    hide ToBE, FromBE;
    RecordParts(ToBE(r.contentType, 1), ToBE(r.version, 2), ToBE(r.sequence, 8), ToBE(|r.body|, 2), r.body);
  }

  /** The sequence number holds the epoch above the 48-bit number. */
  lemma {:induction false} EpochAbove(epoch: nat, number: nat)
    requires epoch < Pow256(2) && number < Pow256(6)
    ensures var v := FromBE(SequenceBytes(epoch, number));
            && v == epoch * R.EPOCH_UNIT + number && v / R.EPOCH_UNIT == epoch
            && v < 0x1_0000_0000_0000_0000 && ToBE(v, 8) == SequenceBytes(epoch, number)
  {
    DecodedIsEncoded(epoch, 2);
    DecodedIsEncoded(number, 6);
    FromBEJoin(ToBE(epoch, 2), ToBE(number, 6));
    SixBytes();
    EncodedIsDecoded(SequenceBytes(epoch, number));
    R.EightBytes();
    QuotientUnique(FromBE(SequenceBytes(epoch, number)), R.EPOCH_UNIT, epoch, number);
  }

  lemma {:induction false} SixBytes()
    ensures Pow256(6) == 0x1_0000_0000_0000
  {
    Widths();
    assert Pow256(4) == 256 * Pow256(3) && Pow256(5) == 256 * Pow256(4) && Pow256(6) == 256 * Pow256(5);
  }

  // ---- from the sealing to the opening ----

  /** An AEAD by what it computes: nonce, additional data and text. */
  datatype Aead = Aead(seal: (seq<byte>, seq<byte>, seq<byte>) -> seq<byte>,
                       open: (seq<byte>, seq<byte>, seq<byte>) -> Option<seq<byte>>)

  /** It opens what it sealed, and adds its overhead: always all of it if the length counts. */
  ghost predicate Opens(a: Aead, c: AeadContext) {
    forall nonce, ad, text :: var sealed := a.seal(nonce, ad, text);
      && a.open(nonce, ad, sealed) == Some(text)
      && |text| <= |sealed| <= |text| + c.tagOverhead
      && (!c.omitLengthInAd ==> |sealed| == |text| + c.tagOverhead)
      && (c.omitAd ==> |sealed| >= c.tagOverhead)
  }

  /** The body SealScatter makes of `text`. */
  function Protected(c: AeadContext, a: Aead, contentType: byte, version: nat, seqnum: seq<byte>, random: seq<byte>,
      text: seq<byte>): seq<byte>
    requires ContextOk(c) && |seqnum| == 8 && |random| == c.variableNonceLen
  {
    RecordPrefix(c, seqnum, random)
    + a.seal(SealNonce(c, seqnum, random), AdditionalData(c, contentType, version, seqnum, |text|), text)
  }

  /** SSLAEADContext::Open on a decoded record. */
  function Unprotected(c: AeadContext, a: Aead, r: R.Record): Option<seq<byte>>
    requires ContextOk(c)
  {
    if r.contentType >= 0x100 || |r.body| < ExplicitNonceLen(c) then None
    else
      match OpenInputs(c, r.contentType, r.version, ToBE(r.sequence, 8), r.body)
      case None => None
      case Some((nonce, ad)) => a.open(nonce, ad, r.body[ExplicitNonceLen(c)..])
  }

  lemma {:induction false} UnprotectsProtected(c: AeadContext, a: Aead, contentType: byte, version: nat, epoch: nat,
      number: nat, random: seq<byte>, text: seq<byte>)
    requires ContextOk(c) && Opens(a, c) && |random| == c.variableNonceLen && |text| < 0x1_0000
    requires epoch < Pow256(2) && number < Pow256(6)
    ensures var seqnum := SequenceBytes(epoch, number);
            Unprotected(c, a, R.Record(contentType, version, FromBE(seqnum),
                Protected(c, a, contentType, version, seqnum, random, text))) == Some(text)
  {
    var seqnum := SequenceBytes(epoch, number);
    EpochAbove(epoch, number);
    var nonce, ad := SealNonce(c, seqnum, random), AdditionalData(c, contentType, version, seqnum, |text|);
    var sealed := a.seal(nonce, ad, text);
    OpenAgreesWithSeal(c, contentType, version, seqnum, random, |text|, sealed);
    hide SequenceBytes, SealNonce, AdditionalData, OpenInputs;
    var prefix := RecordPrefix(c, seqnum, random);
    assert |prefix| == ExplicitNonceLen(c);
    assert (prefix + sealed)[|prefix|..] == sealed;
  }

  /** A record sealed under some epoch and number, as bytes with anything behind it, given to a
      reader with the same keys that expects this version: it is opened to what was sealed, and
      remembered, exactly if the reader is in that epoch, does not discard the number, and the text
      is not too long; otherwise nothing changes. An alert is reported as one. A record of another
      version takes the rest of the packet with it. */
  lemma {:induction false} SealedIsOpened(s: R.Reader, c: AeadContext, a: Aead, contentType: byte, version: nat,
      expected: nat, epoch: nat, number: nat, random: seq<byte>, text: seq<byte>, rest: seq<byte>)
    requires ContextOk(c) && Opens(a, c) && |random| == c.variableNonceLen && |text| < 0x1_0000
    requires epoch < Pow256(2) && number < Pow256(6) && version < 0x1_0000
    requires |Protected(c, a, contentType, version, SequenceBytes(epoch, number), random, text)| <= 16704
    ensures FromBE(SequenceBytes(epoch, number)) < 0x1_0000_0000_0000_0000
    ensures var seqnum := SequenceBytes(epoch, number);
            var r := R.Record(contentType, version, FromBE(seqnum),
                Protected(c, a, contentType, version, seqnum, random, text));
            var cipher := R.Cipher(false, expected, (record: R.Record) => Unprotected(c, a, record));
            R.OpenRecord(s, RecordBytes(r) + rest, false, cipher)
            == if version != expected then (s, R.Discard, |RecordBytes(r) + rest|)
               else if s.epoch != epoch || Discards(s.recorded, r.sequence) then (s, R.Discard, |RecordBytes(r)|)
               else if |text| > 16384 then (s, R.RecordOverflow, |RecordBytes(r)|)
               else (s.(recorded := s.recorded + {r.sequence}),
                     if contentType == 21 then R.AlertReceived(text) else R.Success(contentType, text),
                     |RecordBytes(r)|)
  {
    EpochAbove(epoch, number);
    var seqnum := SequenceBytes(epoch, number);
    UnprotectsProtected(c, a, contentType, version, epoch, number, random, text);
    var r := R.Record(contentType, version, FromBE(seqnum),
        Protected(c, a, contentType, version, seqnum, random, text));
    RecordRoundTrip(r, rest);
    assert |RecordBytes(r)| == 13 + |r.body|;
    hide RecordBytes, R.DecodeRecord, SequenceBytes, Protected, Unprotected, Discards, FromBE;
    assert RecordBytes(r) + rest != [];
  }

  /** The same before any keys: under the null cipher the body is the text, and only the major
      version counts. */
  lemma {:induction false} PlainIsOpened(s: R.Reader, contentType: byte, version: nat, epoch: nat, number: nat,
      text: seq<byte>, rest: seq<byte>, expected: nat)
    requires |text| <= MAX_PLAIN_LENGTH && epoch < Pow256(2) && number < Pow256(6) && version < 0x1_0000
    ensures FromBE(SequenceBytes(epoch, number)) < 0x1_0000_0000_0000_0000
    ensures var r := R.Record(contentType, version, FromBE(SequenceBytes(epoch, number)), text);
            var cipher := R.Cipher(true, expected, (record: R.Record) => Some(record.body));
            R.OpenRecord(s, RecordBytes(r) + rest, false, cipher)
            == if version / 256 != 254 then (s, R.Discard, |RecordBytes(r) + rest|)
               else if s.epoch == epoch && !Discards(s.recorded, r.sequence)
               then (s.(recorded := s.recorded + {r.sequence}),
                     if contentType == 21 then R.AlertReceived(text) else R.Success(contentType, text),
                     |RecordBytes(r)|)
               else (s, R.Discard, |RecordBytes(r)|)
  {
    EpochAbove(epoch, number);
    var r := R.Record(contentType, version, FromBE(SequenceBytes(epoch, number)), text);
    RecordRoundTrip(r, rest);
    assert |RecordBytes(r)| == 13 + |r.body|;
    hide RecordBytes, R.DecodeRecord, SequenceBytes, Discards, FromBE;
    assert RecordBytes(r) + rest != [];
  }

  /** After the peer has closed nothing is opened; nothing is in an empty input; and what does not
      decode is skipped whole. */
  lemma {:induction false} NothingToOpen(s: R.Reader, input: seq<byte>, c: R.Cipher)
    ensures R.OpenRecord(s, input, true, c) == (s, R.CloseNotify, 0)
    ensures R.OpenRecord(s, [], false, c) == (s, R.Partial, 0)
    ensures input != [] && R.DecodeRecord(input).None? ==> R.OpenRecord(s, input, false, c) == (s, R.Discard, |input|)
  {
    hide R.DecodeRecord;
  }

  /** The four bytes in front of a handshake message over TLS: type and 24-bit length. */
  lemma {:induction false} FrameLayout(m: HsMessage)
    requires MessageFits(m)
    ensures var s := M.Frame(m); |s| == 4 + |m.body| && s[0] == m.msgType && At24(s, 1) == |m.body| && s[4..] == m.body
  {
    ThreeBytes(|m.body|);
    Digits(|m.body|);
  }
}
