/** Nonces and additional data of the record protection: what sealing computes, what opening
    recomputes from the record, and why two sequence numbers never share a nonce. */
module RecordNonce {
  import opened Wire

  const MAX_NONCE_LENGTH: nat := 24

  /** An SSLAEADContext for a cipher other than the null cipher. */
  datatype AeadContext = AeadContext(
    fixedNonce: seq<byte>, variableNonceLen: nat, variableNonceInRecord: bool, randomVariableNonce: bool,
    omitLengthInAd: bool, omitVersionInAd: bool, omitAd: bool, xorFixedNonce: bool, tagOverhead: nat)

  /** What SSLAEADContext::Create distinguishes. */
  datatype CipherKind = AesGcm | ChaCha20Poly1305 | StatefulMac

  /** SSLAEADContext::Create; `aeadNonceLen` is the AEAD's own nonce length. */
  function Create(kind: CipherKind, tls13: bool, ssl3: bool, fixedIv: seq<byte>, aeadNonceLen: nat, tagOverhead: nat)
    : AeadContext
    requires !kind.StatefulMac? && !kind.ChaCha20Poly1305? ==> |fixedIv| <= aeadNonceLen
  {
    if kind.StatefulMac? then
      AeadContext([], aeadNonceLen, true, true, true, ssl3, false, false, tagOverhead)
    else if tls13 then
      AeadContext(fixedIv, 8, false, false, false, false, true, true, tagOverhead)
    else if kind.ChaCha20Poly1305? then
      AeadContext(fixedIv, 8, false, false, false, false, false, true, tagOverhead)
    else
      AeadContext(fixedIv, aeadNonceLen - |fixedIv|, true, false, false, false, false, false, tagOverhead)
  }

  /** What the assertions in Create, Open and SealScatter demand of a context. */
  predicate ContextOk(c: AeadContext) {
    && |c.fixedNonce| + c.variableNonceLen <= MAX_NONCE_LENGTH
    && (c.randomVariableNonce ==> c.variableNonceInRecord && c.omitLengthInAd)
    && (!c.randomVariableNonce ==> c.variableNonceLen == 8)
    && (c.xorFixedNonce ==> !c.variableNonceInRecord && !c.randomVariableNonce && c.variableNonceLen <= |c.fixedNonce|)
  }

  lemma {:induction false} CreatedContextOk(kind: CipherKind, tls13: bool, ssl3: bool, fixedIv: seq<byte>,
      aeadNonceLen: nat, tagOverhead: nat)
    requires |fixedIv| <= 12 && aeadNonceLen <= MAX_NONCE_LENGTH
    requires kind.AesGcm? ==> |fixedIv| <= aeadNonceLen
    requires kind.AesGcm? && !tls13 ==> aeadNonceLen == |fixedIv| + 8
    requires (kind.ChaCha20Poly1305? || tls13) ==> 8 <= |fixedIv|
    ensures ContextOk(Create(kind, tls13, ssl3, fixedIv, aeadNonceLen, tagOverhead))
  {
  }

  // ---- exclusive or of bytes ----

  /** Bitwise exclusive or of the low `n` bits, lowest bit first. */
  function XorBits(a: nat, b: nat, n: nat): (x: nat)
    ensures x < Pow2(n)
  {
    if n == 0 then 0 else 2 * XorBits(a / 2, b / 2, n - 1) + (a % 2 + b % 2) % 2
  }

  function Xor(a: byte, b: byte): byte {
    assert Pow2(8) == 256;
    XorBits(a, b, 8)
  }

  lemma {:induction false} XorBitsCancel(a: nat, b: nat, n: nat)
    requires a < Pow2(n)
    ensures XorBits(XorBits(a, b, n), b, n) == a
  {
    if n > 0 {
      var x, bit := XorBits(a / 2, b / 2, n - 1), (a % 2 + b % 2) % 2;
      XorBitsCancel(a / 2, b / 2, n - 1);
      Halve(x, bit);
      XorTwice(a % 2, b % 2);
    }
  }

  lemma {:induction false} Halve(x: nat, bit: nat)
    requires bit < 2
    ensures (2 * x + bit) / 2 == x && (2 * x + bit) % 2 == bit
  {
  }

  lemma {:induction false} XorTwice(a: nat, b: nat)
    requires a < 2 && b < 2
    ensures ((a + b) % 2 + b) % 2 == a
  {
  }

  lemma {:induction false} XorCancels(a: byte, b: byte)
    ensures Xor(Xor(a, b), b) == a
  {
    assert Pow2(8) == 256;
    XorBitsCancel(a, b, 8);
  }

  function XorAll(s: seq<byte>, key: seq<byte>): (r: seq<byte>)
    requires |s| == |key|
    ensures |r| == |s|
  {
    seq(|s|, i requires 0 <= i < |s| => Xor(s[i], key[i]))
  }

  lemma {:induction false} XorAllCancels(s: seq<byte>, key: seq<byte>)
    requires |s| == |key|
    ensures XorAll(XorAll(s, key), key) == s
  {
    hide Xor;
    forall i | 0 <= i < |s|
      ensures XorAll(XorAll(s, key), key)[i] == s[i]
    {
      XorCancels(s[i], key[i]);
    }
  }

  // ---- sealing ----

  /** Nonce of SealScatter for the 8-byte sequence number `seqnum`; `random` is what RAND_bytes
      gives when the variable part is random. */
  function SealNonce(c: AeadContext, seqnum: seq<byte>, random: seq<byte>): (nonce: seq<byte>)
    requires ContextOk(c) && |seqnum| == 8 && |random| == c.variableNonceLen
  {
    var variable := if c.randomVariableNonce then random else seqnum;
    if c.xorFixedNonce then
      XorAll(seq(|c.fixedNonce| - c.variableNonceLen, _ => 0) + variable, c.fixedNonce)
    else c.fixedNonce + variable
  }

  /** The explicit nonce that precedes the ciphertext. */
  function RecordPrefix(c: AeadContext, seqnum: seq<byte>, random: seq<byte>): seq<byte>
    requires |seqnum| == 8
  {
    if c.variableNonceInRecord then if c.randomVariableNonce then random else seqnum else []
  }

  function ExplicitNonceLen(c: AeadContext): nat {
    if c.variableNonceInRecord then c.variableNonceLen else 0
  }

  function MaxOverhead(c: AeadContext): nat {
    ExplicitNonceLen(c) + c.tagOverhead
  }

  function AdditionalData(c: AeadContext, contentType: byte, version: nat, seqnum: seq<byte>,
      plaintextLen: nat): seq<byte> {
    if c.omitAd then []
    else
      seqnum + [contentType]
      + (if c.omitVersionInAd then [] else ToBE(version, 2))
      + (if c.omitLengthInAd then [] else ToBE(plaintextLen, 2))
  }

  // ---- opening ----

  /** Nonce and additional data that Open derives from the protected record; none if the record
      is too short. */
  function OpenInputs(c: AeadContext, contentType: byte, version: nat, seqnum: seq<byte>, record: seq<byte>)
    : Option<(seq<byte>, seq<byte>)>
    requires ContextOk(c) && |seqnum| == 8
  {
    if !c.omitLengthInAd && |record| < MaxOverhead(c) then None
    else
      var plaintextLen := if c.omitLengthInAd then 0 else |record| - MaxOverhead(c);
      var ad := AdditionalData(c, contentType, version, seqnum, plaintextLen);
      if c.variableNonceInRecord && |record| < c.variableNonceLen then None
      else
        var variable := if c.variableNonceInRecord then record[..c.variableNonceLen] else seqnum;
        var nonce := if c.xorFixedNonce then
                       XorAll(seq(|c.fixedNonce| - c.variableNonceLen, _ => 0) + variable, c.fixedNonce)
                     else c.fixedNonce + variable;
        Some((nonce, ad))
  }

  /** Opening recomputes exactly the nonce and the additional data that sealing used, if and
      only if the length is left out of the additional data or the AEAD's overhead is its
      maximum (modulo 2^16, the width of the length). */
  lemma {:induction false} OpenAgreesWithSeal(c: AeadContext, contentType: byte, version: nat, seqnum: seq<byte>,
      random: seq<byte>, plaintextLen: nat, sealed: seq<byte>)
    requires ContextOk(c) && |seqnum| == 8 && |random| == c.variableNonceLen
    requires plaintextLen < 0x1_0000
    requires plaintextLen <= |sealed| <= plaintextLen + c.tagOverhead
    ensures var record := RecordPrefix(c, seqnum, random) + sealed;
            OpenInputs(c, contentType, version, seqnum, record)
              == Some((SealNonce(c, seqnum, random), AdditionalData(c, contentType, version, seqnum, plaintextLen)))
            <==> (c.omitAd && |sealed| >= c.tagOverhead) || c.omitLengthInAd || |sealed| == plaintextLen + c.tagOverhead
  {
    hide XorAll, ToBE;
    var prefix := RecordPrefix(c, seqnum, random);
    var record := prefix + sealed;
    assert |record| == ExplicitNonceLen(c) + |sealed|;
    if c.variableNonceInRecord {
      assert record[..c.variableNonceLen] == prefix;
    }
    if !c.omitLengthInAd && |sealed| >= c.tagOverhead && !c.omitAd {
      var front := seqnum + [contentType] + (if c.omitVersionInAd then [] else ToBE(version, 2));
      var openedLen := |sealed| - c.tagOverhead;
      assert AdditionalData(c, contentType, version, seqnum, plaintextLen) == front + ToBE(plaintextLen, 2);
      assert AdditionalData(c, contentType, version, seqnum, openedLen) == front + ToBE(openedLen, 2);
      SameTail(front, ToBE(plaintextLen, 2), ToBE(openedLen, 2));
      Widths();
      DecodedIsEncoded(plaintextLen, 2);
      DecodedIsEncoded(openedLen, 2);
    }
  }

  lemma {:induction false} SameTail(front: seq<byte>, a: seq<byte>, b: seq<byte>)
    ensures front + a == front + b <==> a == b
  {
    assert (front + a)[|front|..] == a && (front + b)[|front|..] == b;
  }

  // ---- distinct records have distinct nonces ----

  lemma {:induction false} SameFront(front: seq<byte>, a: seq<byte>, b: seq<byte>, key: seq<byte>)
    requires |front| + |a| == |front| + |b| == |key|
    requires XorAll(front + a, key) == XorAll(front + b, key)
    ensures a == b
  {
    XorAllCancels(front + a, key);
    XorAllCancels(front + b, key);
    SameTail(front, a, b);
  }

  /** In both constructions, prepending and XORing, distinct sequence numbers give distinct nonces. */
  lemma {:induction false} DistinctNonces(c: AeadContext, s: seq<byte>, t: seq<byte>, random: seq<byte>)
    requires ContextOk(c) && !c.randomVariableNonce && |s| == |t| == 8 && |random| == c.variableNonceLen
    ensures SealNonce(c, s, random) == SealNonce(c, t, random) <==> s == t
  {
    hide XorAll;
    if SealNonce(c, s, random) == SealNonce(c, t, random) {
      if c.xorFixedNonce {
        SameFront(seq(|c.fixedNonce| - c.variableNonceLen, _ => 0), s, t, c.fixedNonce);
      } else {
        SameTail(c.fixedNonce, s, t);
      }
    }
  }

  /** The sequence number as it goes into the record: epoch, then the 48-bit number. */
  function SequenceBytes(epoch: nat, number: nat): (s: seq<byte>)
    ensures |s| == 8
  {
    ToBE(epoch, 2) + ToBE(number, 6)
  }

  lemma {:induction false} SequenceBytesInjective(e: nat, n: nat, e': nat, n': nat)
    requires e < Pow256(2) && e' < Pow256(2) && n < Pow256(6) && n' < Pow256(6)
    ensures SequenceBytes(e, n) == SequenceBytes(e', n') <==> e == e' && n == n'
  {
    hide ToBE, FromBE;
    var s, s' := SequenceBytes(e, n), SequenceBytes(e', n');
    assert s[..2] == ToBE(e, 2) && s[2..] == ToBE(n, 6);
    assert s'[..2] == ToBE(e', 2) && s'[2..] == ToBE(n', 6);
    DecodedIsEncoded(e, 2);
    DecodedIsEncoded(n, 6);
    DecodedIsEncoded(e', 2);
    DecodedIsEncoded(n', 6);
  }

  // ---- the in-place assembly ----

  /** Assembles the nonce of one sealing in a stack buffer, as SealScatter does. */
  method AssembleNonce(c: AeadContext, seqnum: seq<byte>, random: seq<byte>)
    returns (nonce: array<byte>, nonceLen: nat)
    requires ContextOk(c) && |seqnum| == 8 && |random| == c.variableNonceLen
    ensures fresh(nonce) && nonceLen <= nonce.Length
    ensures nonce[..nonceLen] == SealNonce(c, seqnum, random)
  {
    hide Xor;
    nonce := new byte[MAX_NONCE_LENGTH](_ => 0);
    var fixedLen := |c.fixedNonce|;
    if c.xorFixedNonce {
      nonceLen := fixedLen - c.variableNonceLen;
      assert nonce[..nonceLen] == seq(nonceLen, _ => 0);
    } else {
      forall i | 0 <= i < fixedLen {
        nonce[i] := c.fixedNonce[i];
      }
      nonceLen := fixedLen;
      assert nonce[..nonceLen] == c.fixedNonce;
    }
    ghost var front := nonce[..nonceLen];
    var variable := if c.randomVariableNonce then random else seqnum;
    forall i | 0 <= i < c.variableNonceLen {
      nonce[nonceLen + i] := variable[i];
    }
    nonceLen := nonceLen + c.variableNonceLen;
    ghost var plain := nonce[..nonceLen];
    assert plain == front + variable;
    if c.xorFixedNonce {
      var i := 0;
      while i < fixedLen
        invariant 0 <= i <= fixedLen == nonceLen
        invariant forall j :: 0 <= j < i ==> nonce[j] == Xor(plain[j], c.fixedNonce[j])
        invariant forall j :: i <= j < nonceLen ==> nonce[j] == plain[j]
      {
        nonce[i] := Xor(nonce[i], c.fixedNonce[i]);
        i := i + 1;
      }
    }
  }
}
