/** Wire primitives of Protocol Buffers ("Base 128 Varints", "Message Structure"): varints,
    zig-zag, fixed-width integers, tags, and skipping; each printer undone by its parser. */
module PbWire {
  import opened Wire

  const TWO_32: int := 0x1_0000_0000
  const TWO_63: int := 0x8000_0000_0000_0000
  const TWO_64: int := 0x1_0000_0000_0000_0000

  /** Bitwise or of the low `n` bits. */
  function OrBits(a: nat, b: nat, n: nat): (x: nat)
    ensures x < Pow2(n)
  {
    if n == 0 then 0 else 2 * OrBits(a / 2, b / 2, n - 1) + (if a % 2 == 1 || b % 2 == 1 then 1 else 0)
  }

  // ---- powers of two ----

  lemma {:induction false} PowAdd(m: nat, n: nat)
    ensures Pow2(m + n) == Pow2(m) * Pow2(n)
  {
    if m > 0 {
      PowAdd(m - 1, n);
    }
  }

  lemma {:induction false} PowValues()
    ensures Pow2(7) == 128 && Pow2(8) == 256 && Pow2(16) == 0x1_0000 && Pow2(28) == 0x1000_0000
    ensures Pow2(31) == 0x8000_0000 && Pow2(32) == TWO_32 && Pow2(63) == TWO_63 && Pow2(64) == TWO_64
  {
    assert Pow2(7) == 128;
    assert Pow2(8) == 256;
    PowAdd(8, 8);
    PowAdd(16, 8);
    PowAdd(24, 4);
    PowAdd(24, 7);
    PowAdd(16, 16);
    PowAdd(32, 31);
    PowAdd(32, 32);
    assert Pow2(4) == 16;
  }

  /** Bits that do not overlap: or is addition. */
  lemma {:induction false} OrDisjoint(a: nat, c: nat, k: nat, n: nat)
    requires a < Pow2(k) && k <= n && a + c * Pow2(k) < Pow2(n)
    ensures OrBits(a, c * Pow2(k), n) == a + c * Pow2(k)
    decreases n
  {
    if n == 0 {
    } else if k == 0 {
      OrZero(c, n);
    } else {
      var b := c * Pow2(k);
      assert b == 2 * (c * Pow2(k - 1));
      HalfLess(a, k);
      OrDisjoint(a / 2, c, k - 1, n - 1);
    }
  }

  lemma {:induction false} HalfLess(a: nat, k: nat)
    requires k > 0 && a < Pow2(k)
    ensures a / 2 < Pow2(k - 1)
  {
  }

  lemma {:induction false} OrZero(c: nat, n: nat)
    requires c < Pow2(n)
    ensures OrBits(0, c, n) == c
  {
    if n > 0 {
      OrZero(c / 2, n - 1);
    }
  }

  // ---- varints ----

  function EncVarint(v: nat): (s: Bytes)
    ensures |s| >= 1
  {
    if v < 128 then [v] else [v % 128 + 128] + EncVarint(v / 128)
  }

  /** `value << bitpos` in an integer of `width` bits. */
  function Shifted(value: nat, bitpos: nat, width: nat): nat {
    (value * Pow2(bitpos)) % Pow2(width)
  }

  /** pb_decode_varint from its loop head on. */
  function Varint64From(s: Bytes, bitpos: nat, result: nat): (r: Option<(nat, Bytes)>)
    ensures r.Some? ==> |r.value.1| < |s|
    decreases |s|
  {
    if bitpos >= 64 || s == [] then None
    else
      var r := OrBits(result, Shifted(s[0] % 128, bitpos, 64), 64);
      if s[0] >= 128 then Varint64From(s[1..], bitpos + 7, r) else Some((r, s[1..]))
  }

  function DecVarint(s: Bytes): (r: Option<(nat, Bytes)>)
    ensures r.Some? ==> |r.value.1| < |s|
  {
    Varint64From(s, 0, 0)
  }

  /** The multi-byte loop of pb_decode_varint32_eof; `bitpos` is an 8-bit integer there. */
  function Varint32From(s: Bytes, bitpos: nat, result: nat): (r: Option<(nat, Bytes)>)
    ensures r.Some? ==> |r.value.1| < |s|
    decreases |s|
  {
    if s == [] then None
    else
      var b := s[0];
      var signExtension := if bitpos < 63 then 0xff else 0x01;
      if bitpos >= 32 && b % 128 != 0 && (result / 0x8000_0000 == 0 || b != signExtension) then None
      else
        var r := if bitpos >= 32 then result else OrBits(result, Shifted(b % 128, bitpos, 32), 32);
        var next := (bitpos + 7) % 256;
        if b >= 128 then Varint32From(s[1..], next, r)
        else if next == 35 && b / 16 != 0 then None
        else Some((r, s[1..]))
  }

  function DecVarint32(s: Bytes): (r: Option<(nat, Bytes)>)
    ensures r.Some? ==> |r.value.1| < |s|
  {
    if s == [] then None
    else if s[0] < 128 then Some((s[0], s[1..]))
    else Varint32From(s[1..], 7, s[0] % 128)
  }

  // ---- integers as bytes, zig-zag, tags ----

  /** A negative number as the unsigned 64-bit integer C converts it to. */
  function Unsigned64(n: int): nat {
    n % TWO_64
  }

  /** The signed reading of the low `bits` bits. */
  function Signed(u: nat, bits: nat): int
    requires bits > 0
  {
    var low := u % Pow2(bits);
    if low < Pow2(bits - 1) then low else low - Pow2(bits)
  }

  function ZigZag(n: int): nat {
    if n < 0 then (TWO_64 - 1) - (2 * Unsigned64(n)) % TWO_64 else (2 * n) % TWO_64
  }

  function UnZigZag(u: nat): int {
    if u % 2 == 1 then -(u / 2) - 1 else u / 2
  }

  function LittleEndian(v: nat, n: nat): (s: Bytes)
    ensures |s| == n
  {
    if n == 0 then [] else [v % 256] + LittleEndian(v / 256, n - 1)
  }

  function FromLittleEndian(s: Bytes): nat {
    if s == [] then 0 else s[0] + 256 * FromLittleEndian(s[1..])
  }

  const WT_VARINT: nat := 0
  const WT_64BIT: nat := 1
  const WT_STRING: nat := 2
  const WT_32BIT: nat := 5

  function Take(s: Bytes, n: nat): Option<(Bytes, Bytes)> {
    if n <= |s| then Some((s[..n], s[n..])) else None
  }

  function SkipVarint(s: Bytes): (r: Option<Bytes>)
    ensures r.Some? ==> |r.value| < |s|
  {
    if s == [] then None else if s[0] >= 128 then SkipVarint(s[1..]) else Some(s[1..])
  }

  /** A length prefix and as many bytes as it says. */
  function TakeDelimited(s: Bytes): (r: Option<(Bytes, Bytes)>)
    ensures r.Some? ==> |r.value.0| + |r.value.1| < |s|
  {
    match DecVarint32(s)
    case None => None
    case Some((n, rest)) => Take(rest, n)
  }

  function SkipBytes(s: Bytes, n: nat): Option<Bytes> {
    if n <= |s| then Some(s[n..]) else None
  }

  /** pb_skip_field: what is left after a field of this wire type, or an error. */
  function SkipField(wire: nat, s: Bytes): (r: Option<Bytes>)
    ensures r.Some? ==> |r.value| <= |s|
  {
    if wire == WT_VARINT then SkipVarint(s)
    else if wire == WT_64BIT then SkipBytes(s, 8)
    else if wire == WT_STRING then
      match TakeDelimited(s)
      case None => None
      case Some((_, rest)) => Some(rest)
    else if wire == WT_32BIT then SkipBytes(s, 4)
    else None
  }

  // ---- what a parser undoes ----

  lemma {:induction false} OrShifted(v: nat, bitpos: nat, result: nat, width: nat)
    requires result < Pow2(bitpos) && bitpos < width && v * Pow2(bitpos) + result < Pow2(width)
    ensures OrBits(result, Shifted(v, bitpos, width), width) == result + v * Pow2(bitpos)
  {
    hide OrBits, Pow2;
    SmallMod(v * Pow2(bitpos), Pow2(width));
    OrDisjoint(result, v, bitpos, width);
  }

  lemma {:induction false} SmallMod(x: nat, m: nat)
    requires x < m
    ensures x % m == x
  {
  }

  lemma {:induction false} Distribute(a: nat, b: nat, p: nat)
    ensures (128 * a + b) * p == a * (128 * p) + b * p
  {
  }

  lemma {:induction false} MulMonotone(a: nat, b: nat, p: nat)
    requires a <= b
    ensures a * p <= b * p
  {
  }

  /** The low seven bits of `v` join the result; what is left of `v` still fits above them. */
  lemma {:induction false} LowSeven(v: nat, bitpos: nat, result: nat, width: nat)
    requires result < Pow2(bitpos) && bitpos < width && v * Pow2(bitpos) + result < Pow2(width)
    ensures OrBits(result, Shifted(v % 128, bitpos, width), width) == result + (v % 128) * Pow2(bitpos)
    ensures Pow2(bitpos + 7) == 128 * Pow2(bitpos)
    ensures result + (v % 128) * Pow2(bitpos) < Pow2(bitpos + 7)
    ensures (v / 128) * Pow2(bitpos + 7) + (result + (v % 128) * Pow2(bitpos)) == result + v * Pow2(bitpos)
    ensures v >= 128 ==> bitpos + 7 < width
  {
    hide OrBits, Shifted, Pow2;
    var p := Pow2(bitpos);
    var low, high := v % 128, v / 128;
    Distribute(high, low, p);
    MulMonotone(low, 127, p);
    MulMonotone(low, v, p);
    PowAdd(bitpos, 7);
    PowValues();
    OrShifted(low, bitpos, result, width);
    if v >= 128 && bitpos + 7 >= width {
      MulMonotone(1, high, 128 * p);
      PowMonotone(width, bitpos + 7);
    }
  }

  lemma {:induction false} PowMonotone(m: nat, n: nat)
    requires m <= n
    ensures Pow2(m) <= Pow2(n)
  {
    if m < n {
      PowMonotone(m, n - 1);
    }
  }

  lemma {:induction false} EncVarintHead(v: nat, t: Bytes)
    ensures (EncVarint(v) + t)[0] == v % 128 + (if v >= 128 then 128 else 0)
    ensures (EncVarint(v) + t)[1..] == if v < 128 then t else EncVarint(v / 128) + t
  {
  }

  lemma {:induction false} Varint64Step(s: Bytes, bitpos: nat, result: nat)
    requires s != [] && bitpos < 64
    ensures var r := OrBits(result, Shifted(s[0] % 128, bitpos, 64), 64);
            Varint64From(s, bitpos, result)
            == if s[0] >= 128 then Varint64From(s[1..], bitpos + 7, r) else Some((r, s[1..]))
  {
    hide OrBits, Shifted;
  }

  lemma {:induction false} Varint64Loop(v: nat, bitpos: nat, result: nat, t: Bytes)
    requires bitpos < 64 && result < Pow2(bitpos) && v * Pow2(bitpos) + result < Pow2(64)
    ensures Varint64From(EncVarint(v) + t, bitpos, result) == Some((result + v * Pow2(bitpos), t))
    decreases v
  {
    hide OrBits, Shifted, Pow2, EncVarint, Varint64From;
    LowSeven(v, bitpos, result, 64);
    EncVarintHead(v, t);
    if v >= 128 {
      Varint64Loop(v / 128, bitpos + 7, result + (v % 128) * Pow2(bitpos), t);
    }
    Varint64Step(EncVarint(v) + t, bitpos, result);
  }

  /** pb_decode_varint undoes pb_encode_varint on every 64-bit integer, whatever follows. */
  lemma {:induction false} VarintRoundTrip(v: nat, t: Bytes)
    requires v < TWO_64
    ensures DecVarint(EncVarint(v) + t) == Some((v, t))
  {
    hide Varint64From, EncVarint;
    PowValues();
    Varint64Loop(v, 0, 0, t);
  }

  lemma {:induction false} Varint32Loop(v: nat, bitpos: nat, result: nat, t: Bytes)
    requires bitpos < 32
    requires result < Pow2(bitpos) && v * Pow2(bitpos) + result < Pow2(32)
    ensures Varint32From(EncVarint(v) + t, bitpos, result) == Some((result + v * Pow2(bitpos), t))
    decreases v
  {
    hide OrBits, Shifted, Pow2, EncVarint, Varint32From;
    LowSeven(v, bitpos, result, 32);
    EncVarintHead(v, t);
    if bitpos == 28 {
      PowValues();
      LastNibble(v, Pow2(28), result);
    }
    if v >= 128 {
      Varint32Loop(v / 128, bitpos + 7, result + (v % 128) * Pow2(bitpos), t);
    }
    Varint32Step(EncVarint(v) + t, bitpos, result);
  }

  /** One turn of the loop below bit 32. */
  lemma {:induction false} Varint32Step(s: Bytes, bitpos: nat, result: nat)
    requires s != [] && bitpos < 32
    requires bitpos == 28 ==> s[0] < 16
    ensures var r := OrBits(result, Shifted(s[0] % 128, bitpos, 32), 32);
            Varint32From(s, bitpos, result)
            == if s[0] >= 128 then Varint32From(s[1..], bitpos + 7, r) else Some((r, s[1..]))
  {
    hide OrBits, Shifted, Pow2;
  }

  lemma {:induction false} LastNibble(v: nat, p: nat, result: nat)
    requires p == 0x1000_0000 && v * p + result < TWO_32
    ensures v < 16
  {
  }

  /** pb_decode_varint32 undoes pb_encode_varint on every 32-bit integer, whatever follows. */
  lemma {:induction false} Varint32RoundTrip(v: nat, t: Bytes)
    requires v < TWO_32
    ensures DecVarint32(EncVarint(v) + t) == Some((v, t))
  {
    hide Varint32From, Pow2;
    var s := EncVarint(v) + t;
    if v < 128 {
      assert s[1..] == t;
    } else {
      assert s[1..] == EncVarint(v / 128) + t;
      PowValues();
      Varint32Loop(v / 128, 7, v % 128, t);
    }
  }

  lemma {:induction false} ShiftedOut()
    ensures Shifted(0x10, 28, 32) == 0 && Shifted(0x10, 28, 64) == TWO_32
  {
    PowValues();
    hide Pow2;
  }

  /** The overflow check looks at the fifth byte only when it is the last one: a continued fifth
      byte loses its high bits silently, and 2^32 is read as 0. */
  lemma {:induction false} Varint32DropsHighBits()
    ensures var s: Bytes := [0x80, 0x80, 0x80, 0x80, 0x90, 0x00];
            DecVarint32(s) == Some((0, [])) && DecVarint(s) == Some((TWO_32, []))
  {
    PowValues();
    ShiftedOut();
    hide OrBits, Shifted, Pow2;
    ZeroBits(7, 32);
    ZeroBits(14, 32);
    ZeroBits(21, 32);
    OrZero(0, 32);
    var last: Bytes := [0x00];
    assert last[1..] == [];
    assert Varint32From(last, 35, 0) == Some((0, []));
    assert Varint32From([0x90, 0x00], 28, 0) == Some((0, [])) by { assert [0x90, 0x00][1..] == [0x00]; }
    assert Varint32From([0x80, 0x90, 0x00], 21, 0) == Some((0, [])) by { assert [0x80, 0x90, 0x00][1..]
        == [0x90, 0x00]; }
    var s: Bytes := [0x80, 0x80, 0x80, 0x80, 0x90, 0x00];
    assert s[1..][1..][1..] == [0x80, 0x90, 0x00];
    ZeroBits(0, 64);
    ZeroBits(7, 64);
    ZeroBits(14, 64);
    ZeroBits(21, 64);
    ZeroBits(35, 64);
    OrZero(TWO_32, 64);
    assert OrBits(TWO_32, 0, 64) == TWO_32 by { OrNothing(TWO_32, 64); }
    assert Varint64From(last, 35, TWO_32) == Some((TWO_32, []));
    assert Varint64From([0x90, 0x00], 28, 0) == Some((TWO_32, [])) by { assert [0x90, 0x00][1..] == [0x00]; }
    assert Varint64From([0x80, 0x90, 0x00], 21, 0) == Some((TWO_32, [])) by { assert [0x80, 0x90, 0x00][1..]
        == [0x90, 0x00]; }
  }

  lemma {:induction false} ZeroBits(bitpos: nat, width: nat)
    ensures Shifted(0, bitpos, width) == 0 && OrBits(0, 0, width) == 0
  {
    hide OrBits, Pow2;
    SmallMod(0, Pow2(width));
    OrZero(0, width);
  }

  lemma {:induction false} OrNothing(c: nat, n: nat)
    requires c < Pow2(n)
    ensures OrBits(c, 0, n) == c
  {
    if n > 0 {
      OrNothing(c / 2, n - 1);
    }
  }

  lemma {:induction false} ZigZagRoundTrip(n: int)
    requires -TWO_63 <= n < TWO_63
    ensures ZigZag(n) < TWO_64 && UnZigZag(ZigZag(n)) == n
  {
    if n < 0 {
      assert Unsigned64(n) == n + TWO_64;
      assert 2 * (n + TWO_64) == (2 * n + TWO_64) + TWO_64;
    }
  }

  lemma {:induction false} SignedRoundTrip(n: int, bits: nat)
    requires 0 < bits <= 64 && 0 <= n + Pow2(bits - 1) && n < Pow2(bits - 1)
    ensures Signed(Unsigned64(n), bits) == n
  {
    var p, q := Pow2(bits), Pow2(64 - bits);
    assert p == 2 * Pow2(bits - 1);
    hide Pow2;
    PowAdd(bits, 64 - bits);
    PowValues();
    PowMonotone(bits, 64);
    if n < 0 {
      assert Unsigned64(n) == n + TWO_64;
      OneLess(q, p);
      ModAdd((n + p) as nat, q - 1, p);
    } else {
      SmallMod(n, TWO_64);
      SmallMod(n, p);
    }
  }

  lemma {:induction false} OneLess(q: nat, p: nat)
    requires q > 0
    ensures p * q == p + p * (q - 1)
  {
  }

  lemma {:induction false} ModAdd(a: nat, k: nat, p: nat)
    requires a < p
    ensures (a + p * k) % p == a
    decreases k
  {
    if k == 0 {
      SmallMod(a, p);
    } else {
      OneLess(k, p);
      ModAdd(a, k - 1, p);
      ModPlus(a + p * (k - 1), p);
    }
  }

  lemma {:induction false} ModPlus(x: nat, p: nat)
    requires p > 0
    ensures (x + p) % p == x % p
  {
    var q := x / p;
    assert x + p == p * (q + 1) + x % p;
    DivUnique(x + p, p, q + 1, x % p);
  }

  lemma {:induction false} DivUnique(x: nat, p: nat, q: nat, r: nat)
    requires r < p && x == p * q + r
    ensures x % p == r
  {
    var d := x / p - q;
    assert p * d == r - x % p;
    ProductSign(p, d);
  }

  lemma {:induction false} ProductSign(p: nat, d: int)
    ensures d >= 1 ==> p * d >= p
    ensures d <= -1 ==> p * d + p <= 0
  {
  }

  lemma {:induction false} LittleEndianRoundTrip(v: nat, n: nat)
    requires v < Pow256(n)
    ensures FromLittleEndian(LittleEndian(v, n)) == v
  {
    if n > 0 {
      LittleEndianRoundTrip(v / 256, n - 1);
      assert LittleEndian(v, n)[1..] == LittleEndian(v / 256, n - 1);
    }
  }

  // ---- more input behind a parsed item changes nothing ----

  lemma {:induction false} Varint64Extends(s: Bytes, bitpos: nat, result: nat, t: Bytes)
    requires Varint64From(s, bitpos, result).Some?
    ensures var (v, rest) := Varint64From(s, bitpos, result).value;
            Varint64From(s + t, bitpos, result) == Some((v, rest + t)) && |rest| < |s|
    decreases |s|
  {
    hide OrBits, Shifted;
    assert (s + t)[1..] == s[1..] + t;
    if s[0] >= 128 {
      Varint64Extends(s[1..], bitpos + 7, OrBits(result, Shifted(s[0] % 128, bitpos, 64), 64), t);
    }
  }

  lemma {:induction false} VarintExtends(s: Bytes, t: Bytes)
    requires DecVarint(s).Some?
    ensures var (v, rest) := DecVarint(s).value; DecVarint(s + t) == Some((v, rest + t)) && |rest| < |s|
  {
    hide Varint64From;
    Varint64Extends(s, 0, 0, t);
  }

  lemma {:induction false} Varint32LoopExtends(s: Bytes, bitpos: nat, result: nat, t: Bytes)
    requires Varint32From(s, bitpos, result).Some?
    ensures var (v, rest) := Varint32From(s, bitpos, result).value;
            Varint32From(s + t, bitpos, result) == Some((v, rest + t)) && |rest| < |s|
    decreases |s|
  {
    hide OrBits, Shifted;
    assert (s + t)[1..] == s[1..] + t;
    if s[0] >= 128 {
      var r := if bitpos >= 32 then result else OrBits(result, Shifted(s[0] % 128, bitpos, 32), 32);
      Varint32LoopExtends(s[1..], (bitpos + 7) % 256, r, t);
    }
  }

  lemma {:induction false} Varint32Extends(s: Bytes, t: Bytes)
    requires DecVarint32(s).Some?
    ensures var (v, rest) := DecVarint32(s).value; DecVarint32(s + t) == Some((v, rest + t)) && |rest| < |s|
  {
    hide Varint32From;
    assert (s + t)[1..] == s[1..] + t;
    if s[0] >= 128 {
      Varint32LoopExtends(s[1..], 7, s[0] % 128, t);
    }
  }

  lemma {:induction false} DelimitedExtends(s: Bytes, t: Bytes)
    requires TakeDelimited(s).Some?
    ensures var (body, rest) := TakeDelimited(s).value;
            TakeDelimited(s + t) == Some((body, rest + t)) && |body| + |rest| < |s|
  {
    hide DecVarint32;
    Varint32Extends(s, t);
    var (n, rest) := DecVarint32(s).value;
    assert (rest + t)[..n] == rest[..n];
    assert (rest + t)[n..] == rest[n..] + t;
  }

  lemma {:induction false} SkipVarintExtends(s: Bytes, t: Bytes)
    requires SkipVarint(s).Some?
    ensures SkipVarint(s + t) == Some(SkipVarint(s).value + t)
  {
    assert (s + t)[1..] == s[1..] + t;
    if s[0] >= 128 {
      SkipVarintExtends(s[1..], t);
    }
  }

  lemma {:induction false} SkipExtends(wire: nat, s: Bytes, t: Bytes)
    requires SkipField(wire, s).Some?
    ensures SkipField(wire, s + t) == Some(SkipField(wire, s).value + t) && |SkipField(wire, s).value| <= |s|
  {
    hide SkipVarint, TakeDelimited;
    if wire == WT_VARINT {
      SkipVarintExtends(s, t);
    } else if wire == WT_STRING {
      DelimitedExtends(s, t);
    } else {
      var n := if wire == WT_64BIT then 8 else 4;
      assert (s + t)[n..] == s[n..] + t;
    }
  }

  /** A length prefix and its bytes are read back as written. */
  lemma {:induction false} DelimitedRoundTrip(body: Bytes, t: Bytes)
    requires |body| < TWO_32
    ensures TakeDelimited(EncVarint(|body|) + body + t) == Some((body, t))
  {
    hide EncVarint, DecVarint32;
    assert EncVarint(|body|) + body + t == EncVarint(|body|) + (body + t);
    Varint32RoundTrip(|body|, body + t);
  }

  // ---- the 32-bit reader against the 64-bit one ----

  lemma {:induction false} OrLow(a: nat, b: nat, n: nat, m: nat)
    requires n <= m
    ensures OrBits(a, b, m) % Pow2(n) == OrBits(a % Pow2(n), b % Pow2(n), n)
  {
    assert Pow2(0) == 1 && OrBits(a % 1, b % 1, 0) == 0;
    hide OrBits, Pow2;
    if n == 0 {
    } else {
      HalfMod(a, n);
      HalfMod(b, n);
      OrHalf(a, b, m);
      OrHalf(a % Pow2(n), b % Pow2(n), n);
      OrLow(a / 2, b / 2, n - 1, m - 1);
      HalfMod(OrBits(a, b, m), n);
    }
  }

  lemma {:induction false} OrHalf(a: nat, b: nat, n: nat)
    requires n > 0
    ensures OrBits(a, b, n) / 2 == OrBits(a / 2, b / 2, n - 1)
    ensures OrBits(a, b, n) % 2 == if a % 2 == 1 || b % 2 == 1 then 1 else 0
  {
  }

  lemma {:induction false} HalfMod(a: nat, n: nat)
    requires n > 0
    ensures (a % Pow2(n)) / 2 == (a / 2) % Pow2(n - 1) && (a % Pow2(n)) % 2 == a % 2
  {
    var p := Pow2(n - 1);
    assert Pow2(n) == 2 * p;
    hide Pow2;
    var q, r := (a / 2) / p, (a / 2) % p;
    assert a == (2 * p) * q + (2 * r + a % 2);
    DivUnique(a, 2 * p, q, 2 * r + a % 2);
  }

  lemma {:induction false} ShiftedLow(v: nat, bitpos: nat)
    ensures Shifted(v, bitpos, 64) % TWO_32 == Shifted(v, bitpos, 32)
    ensures bitpos >= 32 ==> Shifted(v, bitpos, 32) == 0
  {
    hide Pow2;
    PowValues();
    var x := v * Pow2(bitpos);
    assert (x % 0x1_0000_0000_0000_0000) % 0x1_0000_0000 == x % 0x1_0000_0000;
    if bitpos >= 32 {
      PowAdd(32, bitpos - 32);
      Regroup(v, Pow2(bitpos - 32), Pow2(32));
      DivUnique(x, Pow2(32), v * Pow2(bitpos - 32), 0);
    }
  }

  lemma {:induction false} Regroup(a: nat, b: nat, c: nat)
    ensures a * (c * b) == c * (a * b)
  {
  }

  /** What the 32-bit loop holds is the low half of what the 64-bit loop holds. */
  lemma {:induction false} NextLow(result: nat, part: nat, bitpos: nat)
    ensures var next := OrBits(result, Shifted(part, bitpos, 64), 64);
            next % TWO_32 == if bitpos >= 32 then result % TWO_32
                else OrBits(result % TWO_32, Shifted(part, bitpos, 32), 32)
  {
    hide OrBits, Shifted, Pow2;
    PowValues();
    OrLow(result, Shifted(part, bitpos, 64), 32, 64);
    ShiftedLow(part, bitpos);
    if bitpos >= 32 {
      OrNothing(result % TWO_32, 32);
    }
  }

  lemma {:induction false} LowLoop(s: Bytes, bitpos: nat, low: nat, result: nat)
    requires bitpos <= 63 && low == result % TWO_32
    requires Varint32From(s, bitpos, low).Some?
    requires var (_, rest) := Varint32From(s, bitpos, low).value; bitpos + 7 * (|s| - |rest|) <= 70
    ensures var (v, rest) := Varint32From(s, bitpos, low).value;
            match Varint64From(s, bitpos, result)
            case None => false
            case Some((w, rest64)) => v == w % TWO_32 && rest == rest64
    decreases |s|
  {
    hide OrBits, Shifted, Pow2;
    PowValues();
    var part := s[0] % 128;
    var next := OrBits(result, Shifted(part, bitpos, 64), 64);
    NextLow(result, part, bitpos);
    if s[0] >= 128 {
      Varint32LoopExtends(s[1..], bitpos + 7, next % TWO_32, []);
      LowLoop(s[1..], bitpos + 7, next % TWO_32, next);
    }
  }

  lemma {:induction false} SevenBits(b: nat)
    ensures b % 128 % TWO_32 == b % 128 && (b < 128 ==> b % 128 == b)
  {
  }

  lemma {:induction false} FirstByte64(s: Bytes)
    requires s != []
    ensures DecVarint(s) == if s[0] >= 128 then Varint64From(s[1..], 7, s[0] % 128) else Some((s[0] % 128, s[1..]))
  {
    ShiftedNowhere(s[0] % 128);
    hide OrBits, Shifted;
    PowValues();
    OrZero(s[0] % 128, 64);
  }

  lemma {:induction false} ShiftedNowhere(b: nat)
    requires b < 128
    ensures Shifted(b, 0, 64) == b
  {
    assert Pow2(0) == 1;
    PowValues();
    hide Pow2;
    assert b * Pow2(0) == b;
  }

  /** Whenever the 32-bit reader accepts a varint of at most ten bytes, the 64-bit reader accepts
      the same bytes, and the 32-bit result is its low half. (The shift count is an 8-bit integer
      in the 32-bit reader, so longer varints are outside this statement.) */
  lemma {:induction false} Varint32IsLowHalf(s: Bytes)
    requires DecVarint32(s).Some?
    requires var (_, rest) := DecVarint32(s).value; |s| - |rest| <= 10
    ensures var (v, rest) := DecVarint32(s).value;
            match DecVarint(s)
            case None => false
            case Some((w, rest64)) => v == w % TWO_32 && rest == rest64
  {
    hide Varint32From, Varint64From, DecVarint, OrBits, Shifted;
    FirstByte64(s);
    SevenBits(s[0]);
    if s[0] >= 128 {
      LowLoop(s[1..], 7, s[0] % 128, s[0] % 128);
    }
  }

  // ---- when the 32-bit reader is exact ----

  /** From the byte that belongs at `bitpos` on: nothing of the varint lies above bit 31. */
  predicate HighBitsClear(s: Bytes, bitpos: nat)
    decreases |s|
  {
    s == []
    || ((bitpos == 28 ==> s[0] % 128 < 16)
        && (bitpos > 28 ==> s[0] % 128 == 0)
        && (s[0] >= 128 ==> HighBitsClear(s[1..], bitpos + 7)))
  }

  lemma {:induction false} OrBelow(a: nat, b: nat, n: nat, k: nat)
    requires a < Pow2(n) && b < Pow2(n) && k <= n
    ensures OrBits(a, b, n) < Pow2(k) <==> a < Pow2(k) && b < Pow2(k)
    decreases n
  {
    hide OrBits;
    if k == 0 {
      OrIsZero(a, b, n);
    } else {
      OrHalf(a, b, n);
      HalfLess(a, n);
      HalfLess(b, n);
      OrBelow(a / 2, b / 2, n - 1, k - 1);
      HalfBelow(a, k);
      HalfBelow(b, k);
      HalfBelow(OrBits(a, b, n), k);
    }
  }

  lemma {:induction false} HalfBelow(a: nat, k: nat)
    requires k > 0
    ensures a < Pow2(k) <==> a / 2 < Pow2(k - 1)
  {
  }

  lemma {:induction false} OrIsZero(a: nat, b: nat, n: nat)
    requires a < Pow2(n) && b < Pow2(n)
    ensures OrBits(a, b, n) == 0 <==> a == 0 && b == 0
  {
    if n > 0 {
      OrIsZero(a / 2, b / 2, n - 1);
    }
  }

  lemma {:induction false} ShiftedBelow(part: nat, bitpos: nat)
    requires part < 128 && bitpos <= 63 && bitpos % 7 == 0 && (bitpos == 63 ==> part < 2)
    ensures Shifted(part, bitpos, 64) < TWO_64
    ensures Shifted(part, bitpos, 64) < TWO_32 <==> (bitpos == 28 ==> part < 16) && (bitpos > 28 ==> part == 0)
  {
    hide Pow2;
    PowValues();
    PowAdd(28, 7);
    var p := Pow2(bitpos);
    if bitpos == 63 {
    } else {
      assert bitpos <= 56;
      PowAdd(56, 7);
      PowMonotone(bitpos, 56);
      MulMonotone(part, 127, p);
      SmallMod(part * p, TWO_64);
      if bitpos <= 21 {
        PowAdd(21, 7);
        PowMonotone(bitpos, 21);
      } else if bitpos > 28 {
        PowMonotone(35, bitpos);
        if part > 0 {
          MulMonotone(1, part, p);
        }
      }
    }
  }

  lemma {:induction false} HighLoop(s: Bytes, bitpos: nat, result: nat)
    requires bitpos <= 63 && bitpos % 7 == 0 && result < TWO_64
    requires Varint32From(s, bitpos, result % TWO_32).Some?
    requires var (_, rest) := Varint32From(s, bitpos, result % TWO_32).value; bitpos + 7 * (|s| - |rest|) <= 70
    ensures Varint64From(s, bitpos, result).Some?
    ensures Varint64From(s, bitpos, result).value.0 < TWO_32 <==> result < TWO_32 && HighBitsClear(s, bitpos)
    decreases |s|
  {
    hide OrBits, Shifted, Pow2;
    PowValues();
    var low := result % TWO_32;
    LowLoop(s, bitpos, low, result);
    var part := s[0] % 128;
    var next := OrBits(result, Shifted(part, bitpos, 64), 64);
    ShiftedBelow(part, bitpos);
    OrBelow(result, Shifted(part, bitpos, 64), 64, 32);
    if s[0] >= 128 {
      NextLow(result, part, bitpos);
      HighLoop(s[1..], bitpos + 7, next);
    }
  }

  /** The 32-bit reader keeps the value of an accepted varint of at most ten bytes if and only if
      the fifth byte carries less than 16 and every later byte nothing. Otherwise the high bits
      are lost without an error. */
  lemma {:induction false} Varint32ExactIff(s: Bytes)
    requires DecVarint32(s).Some?
    requires var (_, rest) := DecVarint32(s).value; |s| - |rest| <= 10
    ensures DecVarint(s) == DecVarint32(s) <==> HighBitsClear(s, 0)
    ensures DecVarint(s).Some? && (DecVarint(s).value.0 < TWO_32 <==> HighBitsClear(s, 0))
  {
    hide Varint32From, Varint64From, DecVarint, OrBits, Shifted;
    Varint32IsLowHalf(s);
    FirstByte64(s);
    SevenBits(s[0]);
    if s[0] >= 128 {
      HighLoop(s[1..], 7, s[0] % 128);
    }
  }
}
