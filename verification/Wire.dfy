/** Bytes, big-endian integers and the DTLS handshake fragment format
    (RFC 6347, section 4.2.2). */
module Wire {

  type byte = b: int | 0 <= b < 256

  type Bytes = seq<byte>

  datatype Option<+T> = None | Some(value: T)

  // ---- record content types ----

  const CHANGE_CIPHER_SPEC: nat := 20
  const ALERT: nat := 21
  const HANDSHAKE: nat := 22
  const APPLICATION_DATA: nat := 23

  const MAX_PLAIN_LENGTH: nat := 16384

  /** How many epochs 16 bits can tell apart. */
  const EPOCHS: nat := 0x1_0000

  /** SSL_MAX_HANDSHAKE_FLIGHT. */
  const MAX_FLIGHT: nat := 7

  /** A handshake message: one byte of type and a body whose length takes 24 bits. */
  datatype HsMessage = HsMessage(msgType: byte, body: Bytes)

  predicate MessageFits(m: HsMessage) {
    |m.body| < 0x100_0000
  }

  ghost predicate Distinct<T>(s: seq<T>) {
    forall i, j :: 0 <= i < j < |s| ==> s[i] != s[j]
  }

  function Pow2(n: nat): (p: nat)
    ensures p > 0
  {
    if n == 0 then 1 else 2 * Pow2(n - 1)
  }

  function Pow256(n: nat): (p: nat)
    ensures p > 0
  {
    if n == 0 then 1 else 256 * Pow256(n - 1)
  }

  /** The big-endian value of a byte string. */
  function FromBE(s: seq<byte>): (v: nat)
    ensures v < Pow256(|s|)
  {
    if s == [] then 0 else FromBE(s[..|s| - 1]) * 256 + s[|s| - 1]
  }

  /** The `n`-byte big-endian form of `v` modulo 256^n. */
  function ToBE(v: nat, n: nat): (s: seq<byte>)
    ensures |s| == n
  {
    if n == 0 then [] else ToBE(v / 256, n - 1) + [v % 256]
  }

  lemma {:induction false} DecodedIsEncoded(v: nat, n: nat)
    requires v < Pow256(n)
    ensures FromBE(ToBE(v, n)) == v
  {
    if n > 0 {
      DecodedIsEncoded(v / 256, n - 1);
      assert ToBE(v, n)[..n - 1] == ToBE(v / 256, n - 1);
    }
  }

  lemma {:induction false} EncodedIsDecoded(s: seq<byte>)
    ensures ToBE(FromBE(s), |s|) == s
  {
    if s != [] {
      EncodedIsDecoded(s[..|s| - 1]);
      assert FromBE(s) / 256 == FromBE(s[..|s| - 1]);
      assert s == s[..|s| - 1] + [s[|s| - 1]];
    }
  }

  // ---- handshake fragments ----

  const HM_HEADER_LENGTH: nat := 12

  /** hm_header_st: one fragment's header. */
  datatype HmHeader = HmHeader(msgType: nat, msgLen: nat, seqNum: nat, fragOff: nat, fragLen: nat)

  /** The widths of the fields: u8, u24, u16, u24, u24. */
  predicate HeaderFits(h: HmHeader) {
    && h.msgType < 0x100 && h.seqNum < 0x1_0000
    && h.msgLen < 0x100_0000 && h.fragOff < 0x100_0000 && h.fragLen < 0x100_0000
  }

  function HeaderBytes(h: HmHeader): (s: seq<byte>)
    ensures |s| == HM_HEADER_LENGTH
  {
    ToBE(h.msgType, 1) + ToBE(h.msgLen, 3) + ToBE(h.seqNum, 2) + ToBE(h.fragOff, 3) + ToBE(h.fragLen, 3)
  }

  function DecodeHeader(s: seq<byte>): HmHeader
    requires |s| == HM_HEADER_LENGTH
  {
    HmHeader(FromBE(s[..1]), FromBE(s[1..4]), FromBE(s[4..6]), FromBE(s[6..9]), FromBE(s[9..]))
  }

  datatype Fragment = Fragment(header: HmHeader, body: seq<byte>)

  function FragmentBytes(f: Fragment): seq<byte> {
    HeaderBytes(f.header) + f.body
  }

  /** dtls1_parse_fragment: the first fragment of `s` and the bytes after it. */
  function ParseFragment(s: seq<byte>): Option<(Fragment, seq<byte>)> {
    if |s| < HM_HEADER_LENGTH then None
    else
      var h := DecodeHeader(s[..HM_HEADER_LENGTH]);
      var rest := s[HM_HEADER_LENGTH..];
      if |rest| < h.fragLen then None
      else Some((Fragment(h, rest[..h.fragLen]), rest[h.fragLen..]))
  }

  lemma {:induction false} Widths()
    ensures Pow256(1) == 0x100 && Pow256(2) == 0x1_0000 && Pow256(3) == 0x100_0000
  {
    assert Pow256(1) == 256 * Pow256(0);
    assert Pow256(2) == 256 * Pow256(1);
    assert Pow256(3) == 256 * Pow256(2);
  }

  lemma {:induction false} HeaderRoundTrip(h: HmHeader)
    requires HeaderFits(h)
    ensures DecodeHeader(HeaderBytes(h)) == h
  {
    Widths();
    var s := HeaderBytes(h);
    assert s[..1] == ToBE(h.msgType, 1);
    assert s[1..4] == ToBE(h.msgLen, 3);
    assert s[4..6] == ToBE(h.seqNum, 2);
    assert s[6..9] == ToBE(h.fragOff, 3);
    assert s[9..] == ToBE(h.fragLen, 3);
    DecodedIsEncoded(h.msgType, 1);
    DecodedIsEncoded(h.msgLen, 3);
    DecodedIsEncoded(h.seqNum, 2);
    DecodedIsEncoded(h.fragOff, 3);
    DecodedIsEncoded(h.fragLen, 3);
  }

  /** Printing then parsing gives the fragment back and leaves what follows it alone. */
  lemma {:induction false} FragmentRoundTrip(f: Fragment, rest: seq<byte>)
    requires HeaderFits(f.header) && |f.body| == f.header.fragLen
    ensures ParseFragment(FragmentBytes(f) + rest) == Some((f, rest))
  {
    var s := FragmentBytes(f) + rest;
    assert s[..HM_HEADER_LENGTH] == HeaderBytes(f.header);
    HeaderRoundTrip(f.header);
    assert s[HM_HEADER_LENGTH..] == f.body + rest;
    assert (f.body + rest)[..|f.body|] == f.body;
    assert (f.body + rest)[|f.body|..] == rest;
  }

  /** Whatever parses is the printed form of what it parses to: no byte is lost or invented. */
  lemma {:induction false} ParsedFragmentPrints(s: seq<byte>)
    requires ParseFragment(s).Some?
    ensures var (f, rest) := ParseFragment(s).value;
            HeaderFits(f.header) && |f.body| == f.header.fragLen && s == FragmentBytes(f) + rest
  {
    Widths();
    var head := s[..HM_HEADER_LENGTH];
    EncodedIsDecoded(head[..1]);
    EncodedIsDecoded(head[1..4]);
    EncodedIsDecoded(head[4..6]);
    EncodedIsDecoded(head[6..9]);
    EncodedIsDecoded(head[9..]);
    assert head == head[..1] + head[1..4] + head[4..6] + head[6..9] + head[9..];
  }
}
