/** The 64-entry sliding window that rejects replayed DTLS records
    (RFC 6347, section 4.1.2.6), proved to agree with the plain set of all
    sequence numbers recorded so far. */
module ReplayWindow {

  /** A record's epoch (upper 16 bits) and sequence number (lower 48), as one 64-bit word. */
  type Sequence = s: nat | s < 0x1_0000_0000_0000_0000

  const WINDOW_SIZE: nat := 64

  // ---- marks on one 64-bit word ----

  function And(x: bv64, y: bv64): bv64 { x & y }
  function Or(x: bv64, y: bv64): bv64 { x | y }
  function Doubled(x: bv64): bv64 { x << 1 }
  predicate AtMostOneBit(x: bv64) { x & (x - 1) == 0 }

  /** `word << n`: n doublings modulo 2^64. */
  function ShiftLeft(word: bv64, n: nat): bv64 {
    if n == 0 then word else Doubled(ShiftLeft(word, n - 1))
  }

  predicate Marked(word: bv64, idx: nat) {
    And(word, ShiftLeft(1, idx)) != 0
  }

  lemma {:induction false} MaskOfOneBit(word: bv64, x: bv64)
    requires AtMostOneBit(x)
    ensures And(word, x) == 0 || And(word, x) == x
  {
  }

  lemma {:induction false} DoubledMask(word: bv64, x: bv64)
    ensures And(Doubled(word), Doubled(x)) == Doubled(And(word, x))
  {
  }

  lemma {:induction false} LowBitOfDouble(x: bv64)
    ensures And(1, Doubled(x)) == 0 && And(Doubled(x), 1) == 0
  {
  }

  lemma {:induction false} DoubledOneBit(x: bv64)
    requires AtMostOneBit(x)
    ensures AtMostOneBit(Doubled(x))
  {
  }

  lemma {:induction false} OrOfDisjoint(word: bv64, x: bv64, bit: bv64)
    requires And(x, bit) == 0
    ensures And(Or(word, x), bit) == And(word, bit)
  {
  }

  lemma {:induction false} OrOfSelf(word: bv64, x: bv64)
    ensures And(Or(word, x), x) == x
  {
  }

  lemma {:induction false} DoubledZero()
    ensures Doubled(0) == 0
  {
  }

  lemma {:induction false} OneBit(idx: nat)
    ensures AtMostOneBit(ShiftLeft(1, idx))
  {
    if idx > 0 {
      OneBit(idx - 1);
      DoubledOneBit(ShiftLeft(1, idx - 1));
    }
  }

  lemma {:induction false} ShiftsAdd(word: bv64, m: nat, n: nat)
    ensures ShiftLeft(word, m + n) == ShiftLeft(ShiftLeft(word, m), n)
  {
    if n > 0 {
      ShiftsAdd(word, m, n - 1);
    }
  }

  lemma {:induction false} ShiftZero(n: nat)
    ensures ShiftLeft(0, n) == 0
  {
    if n > 0 {
      ShiftZero(n - 1);
    }
  }

  lemma {:induction false} TopBit()
    ensures ShiftLeft(1, 63) == 0x8000_0000_0000_0000
  {
    assert ShiftLeft(1, 9) == 0x200;
    ShiftsAdd(1, 9, 9);
    assert ShiftLeft(1, 18) == 0x4_0000;
    ShiftsAdd(1, 18, 9);
    assert ShiftLeft(1, 27) == 0x800_0000;
    ShiftsAdd(1, 27, 9);
    assert ShiftLeft(1, 36) == 0x10_0000_0000;
    ShiftsAdd(1, 36, 9);
    assert ShiftLeft(1, 45) == 0x2000_0000_0000;
    ShiftsAdd(1, 45, 9);
    assert ShiftLeft(1, 54) == 0x40_0000_0000_0000;
    ShiftsAdd(1, 54, 9);
  }

  lemma {:induction false} ShiftSteps(word: bv64, n: nat)
    ensures ShiftLeft(word, 0) == word
    ensures ShiftLeft(word, n + 1) == Doubled(ShiftLeft(word, n))
  {
  }

  lemma {:induction false} NonZeroBit(idx: nat)
    requires idx < 64
    ensures ShiftLeft(1, idx) != 0
  {
    hide *;
    TopBit();
    ShiftsAdd(1, idx, 63 - idx);
    ShiftZero(63 - idx);
  }

  lemma {:induction false} DistinctBits(i: nat, j: nat)
    requires i != j
    ensures And(ShiftLeft(1, i), ShiftLeft(1, j)) == 0
  {
    hide *;
    ShiftSteps(1, if i == 0 then 0 else i - 1);
    ShiftSteps(1, if j == 0 then 0 else j - 1);
    if i == 0 {
      LowBitOfDouble(ShiftLeft(1, j - 1));
    } else if j == 0 {
      LowBitOfDouble(ShiftLeft(1, i - 1));
    } else {
      DistinctBits(i - 1, j - 1);
      DoubledMask(ShiftLeft(1, i - 1), ShiftLeft(1, j - 1));
      DoubledZero();
    }
  }

  lemma {:induction false} DoubledMark(word: bv64, idx: nat)
    requires idx < 63
    ensures Marked(Doubled(word), idx + 1) == Marked(word, idx)
  {
    hide *;
    MarkedMeans(Doubled(word), idx + 1);
    MarkedMeans(word, idx);
    ShiftSteps(1, idx);
    DoubledMask(word, ShiftLeft(1, idx));
    OneBit(idx);
    MaskOfOneBit(word, ShiftLeft(1, idx));
    NonZeroBit(idx + 1);
    NonZeroBit(idx);
    DoubledZero();
  }

  lemma {:induction false} ZeroMarksNothing(idx: nat)
    ensures !Marked(0, idx)
  {
  }

  lemma {:induction false} MarkedMeans(word: bv64, idx: nat)
    ensures Marked(word, idx) <==> And(word, ShiftLeft(1, idx)) != 0
  {
  }

  /** Shifting a word left by `n` moves the mark at `idx` to `idx + n` and clears the low `n` marks. */
  lemma {:induction false} ShiftedMarks(word: bv64, n: nat, idx: nat)
    requires idx < 64
    ensures Marked(ShiftLeft(word, n), idx) == (n <= idx && Marked(word, idx - n))
  {
    hide *;
    ShiftSteps(word, if n == 0 then 0 else n - 1);
    if n > 0 {
      var w := ShiftLeft(word, n - 1);
      if idx == 0 {
        LowBitOfDouble(w);
        ShiftSteps(1, 0);
        MarkedMeans(Doubled(w), 0);
      } else {
        DoubledMark(w, idx - 1);
        ShiftedMarks(word, n - 1, idx - 1);
      }
    }
  }

  lemma {:induction false} SetMark(word: bv64, bit: nat, idx: nat)
    requires bit < 64 && idx < 64
    ensures Marked(Or(word, ShiftLeft(1, bit)), idx) == (bit == idx || Marked(word, idx))
  {
    hide *;
    MarkedMeans(Or(word, ShiftLeft(1, bit)), idx);
    MarkedMeans(word, idx);
    if bit == idx {
      OrOfSelf(word, ShiftLeft(1, idx));
      NonZeroBit(idx);
    } else {
      DistinctBits(bit, idx);
      OrOfDisjoint(word, ShiftLeft(1, bit), ShiftLeft(1, idx));
    }
  }

  // ---- what the window stands for ----

  /** A number is to be discarded when it was recorded before, or when some recorded
      number is 64 or more ahead of it. */
  ghost predicate Discards(recorded: set<Sequence>, s: Sequence) {
    s in recorded || exists m :: m in recorded && m - s >= 64
  }

  ghost predicate InWindow(maxSeq: Sequence, s: Sequence) {
    0 <= maxSeq - s < WINDOW_SIZE
  }

  ghost predicate Represents(word: bv64, maxSeq: Sequence, recorded: set<Sequence>) {
    && (if recorded == {} then maxSeq == 0 else maxSeq in recorded)
    && (forall s :: s in recorded ==> s <= maxSeq)
    && (forall s :: InWindow(maxSeq, s) ==> (Marked(word, maxSeq - s) <==> s in recorded))
  }

  lemma {:induction false} SlideKeepsMarks(word: bv64, maxSeq: Sequence, recorded: set<Sequence>, newMax: Sequence,
      s: Sequence)
    requires Represents(word, maxSeq, recorded)
    requires maxSeq < newMax && newMax - maxSeq < WINDOW_SIZE && InWindow(newMax, s) && s != newMax
    ensures Marked(ShiftLeft(word, newMax - maxSeq), newMax - s) <==> s in recorded
  {
    hide Marked, ShiftLeft;
    ShiftedMarks(word, newMax - maxSeq, newMax - s);
    assert s <= maxSeq ==> InWindow(maxSeq, s);
  }

  /** The in-place window of the record layer. */
  class Window {
    var word: bv64
    var maxSeq: Sequence
    ghost var recorded: set<Sequence>

    ghost predicate Valid()
      reads this
    {
      Represents(word, maxSeq, recorded)
    }

    constructor ()
      ensures Valid() && recorded == {}
    {
      word, maxSeq, recorded := 0, 0, {};
    }

    /** Forgets every number, as a change of read epoch does. */
    method Reset()
      modifies this
      ensures Valid() && recorded == {}
    {
      word, maxSeq, recorded := 0, 0, {};
    }

    method ShouldDiscard(s: Sequence) returns (discard: bool)
      requires Valid()
      ensures discard <==> Discards(recorded, s)
    {
      if s > maxSeq {
        return false;
      }
      var idx := maxSeq - s;
      assert idx < WINDOW_SIZE ==> InWindow(maxSeq, s);
      assert idx >= WINDOW_SIZE ==> maxSeq in recorded;
      return idx >= WINDOW_SIZE || And(word, ShiftLeft(1, idx)) != 0;
    }

    /** Records `s`, sliding the window forward if needed; a number too old for the window
        changes nothing the window can show. */
    method Record(s: Sequence)
      requires Valid()
      modifies this
      ensures Valid() && recorded == old(recorded) + {s}
    {
      hide Marked, ShiftLeft, Or;
      if s > maxSeq {
        var shift := s - maxSeq;
        var slid: bv64 := if shift >= WINDOW_SIZE then 0 else ShiftLeft(word, shift);
        forall t | InWindow(s, t) && t != s
          ensures Marked(slid, s - t) <==> t in recorded
        {
          if shift < WINDOW_SIZE {
            SlideKeepsMarks(word, maxSeq, recorded, s, t);
          } else {
            ZeroMarksNothing(s - t);
          }
        }
        word, maxSeq := slid, s;
      }
      var idx := maxSeq - s;
      if idx < WINDOW_SIZE {
        forall t | InWindow(maxSeq, t)
          ensures Marked(Or(word, ShiftLeft(1, idx)), maxSeq - t) <==> t in recorded + {s}
        {
          SetMark(word, idx, maxSeq - t);
        }
        word := Or(word, ShiftLeft(1, idx));
      }
      recorded := recorded + {s};
    }
  }
}
