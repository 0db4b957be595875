/** Words as their bits, least significant first, and the find-first-set of src/kservice.c. */
module ReadyBits {

  type Bits = seq<bool>

  function Empty(n: nat): Bits {
    seq(n, _ => false)
  }

  /** The index of the first set bit, or the length. */
  function FirstSet(w: Bits): (k: nat)
    ensures k <= |w| && (k < |w| ==> w[k]) && forall i :: 0 <= i < k ==> !w[i]
  {
    if w == [] || w[0] then 0 else 1 + FirstSet(w[1..])
  }

  function One(b: bool): int {
    if b then 1 else 0
  }

  function Nibble(a: bool, b: bool, c: bool, d: bool): (n: nat)
    ensures n < 16
  {
    One(a) + 2 * One(b) + 4 * One(c) + 8 * One(d)
  }

  /** The value of a byte. */
  function ByteValue(w: Bits): (n: nat)
    requires |w| == 8
    ensures n < 256
  {
    Nibble(w[0], w[1], w[2], w[3]) + 16 * Nibble(w[4], w[5], w[6], w[7])
  }

  /** The sixteen rows of __lowest_bit_bitmap differ in their first entry only. */
  const ROW_FIRST := [0, 4, 5, 4, 6, 4, 5, 4, 7, 4, 5, 4, 6, 4, 5, 4]
  const ROW_REST := [0, 1, 0, 2, 0, 1, 0, 3, 0, 1, 0, 2, 0, 1, 0]

  function LowestBitEntry(n: nat): nat
    requires n < 256
  {
    if n % 16 == 0 then ROW_FIRST[n / 16] else ROW_REST[n % 16 - 1]
  }

  lemma LowNibble(a: bool, b: bool, c: bool, d: bool)
    requires a || b || c || d
    ensures Nibble(a, b, c, d) > 0
    ensures ROW_REST[Nibble(a, b, c, d) - 1] == if a then 0 else if b then 1 else if c then 2 else 3
    ensures ROW_FIRST[Nibble(a, b, c, d)] == 4 + ROW_REST[Nibble(a, b, c, d) - 1]
  {
  }

  /** The table gives the first set bit of every byte but zero. */
  lemma {:induction false} EntryIsFirstSet(w: Bits)
    requires |w| == 8 && exists i :: 0 <= i < 8 && w[i]
    ensures ByteValue(w) > 0 && LowestBitEntry(ByteValue(w)) == FirstSet(w)
  {
    var low, high := Nibble(w[0], w[1], w[2], w[3]), Nibble(w[4], w[5], w[6], w[7]);
    var n := ByteValue(w);
    assert n % 16 == low && n / 16 == high;
    if w[0] || w[1] || w[2] || w[3] {
      LowNibble(w[0], w[1], w[2], w[3]);
    } else {
      LowNibble(w[4], w[5], w[6], w[7]);
    }
  }

  predicate IsZero(w: Bits) {
    forall i :: 0 <= i < |w| ==> !w[i]
  }

  lemma {:induction false} ByteZero(w: Bits)
    requires |w| == 8
    ensures ByteValue(w) == 0 <==> IsZero(w)
  {
    if !IsZero(w) {
      EntryIsFirstSet(w);
    }
  }

  /** Byte `k` of a word. */
  function Byte(w: Bits, k: nat): (b: Bits)
    requires |w| == 32 && k < 4
    ensures |b| == 8 && forall i :: 0 <= i < 8 ==> b[i] == w[8 * k + i]
  {
    w[8 * k..8 * k + 8]
  }

  /** __rt_ffs: one more than the index of the first set bit, 0 for a zero word. */
  method Ffs(w: Bits) returns (r: nat)
    requires |w| == 32
    ensures r == if IsZero(w) then 0 else FirstSet(w) + 1
  {
    if IsZero(w) {
      return 0;
    }
    ByteZero(Byte(w, 0));
    ByteZero(Byte(w, 1));
    ByteZero(Byte(w, 2));
    if ByteValue(Byte(w, 0)) != 0 {
      FirstInByte(w, 0);
      return LowestBitEntry(ByteValue(Byte(w, 0))) + 1;
    }
    if ByteValue(Byte(w, 1)) != 0 {
      FirstInByte(w, 1);
      return LowestBitEntry(ByteValue(Byte(w, 1))) + 9;
    }
    if ByteValue(Byte(w, 2)) != 0 {
      FirstInByte(w, 2);
      return LowestBitEntry(ByteValue(Byte(w, 2))) + 17;
    }
    SomeByte(w);
    FirstInByte(w, 3);
    return LowestBitEntry(ByteValue(Byte(w, 3))) + 25;
  }

  lemma {:induction false} SomeByte(w: Bits)
    requires |w| == 32 && !IsZero(w) && IsZero(Byte(w, 0)) && IsZero(Byte(w, 1)) && IsZero(Byte(w, 2))
    ensures !IsZero(Byte(w, 3))
  {
    var i :| 0 <= i < 32 && w[i];
    assert Byte(w, i / 8)[i % 8];
  }

  lemma {:induction false} FirstInByte(w: Bits, k: nat)
    requires |w| == 32 && k < 4 && !IsZero(Byte(w, k)) && forall j :: 0 <= j < k ==> IsZero(Byte(w, j))
    ensures FirstSet(w) == 8 * k + LowestBitEntry(ByteValue(Byte(w, k)))
  {
    EntryIsFirstSet(Byte(w, k));
    var f := FirstSet(Byte(w, k));
    forall i | 0 <= i < 8 * k + f ensures !w[i] {
      assert Byte(w, i / 8)[i % 8] == w[i];
    }
    assert w[8 * k + f];
  }
}
