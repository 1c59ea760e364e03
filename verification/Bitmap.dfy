/** Priority bitmaps: the table-driven __rt_ffs of kservice.c and the one- and two-level ready bitmaps of
    scheduler.c.  A word is its unsigned value; `|= 1 << p` and `&= ~(1 << p)` are SetBit and ClearBit. */
module Bitmap {

  predicate Bit(w: nat, p: nat) {
    if p == 0 then w % 2 == 1 else Bit(w / 2, p - 1)
  }

  function SetBit(w: nat, p: nat): nat {
    if p == 0 then (if w % 2 == 1 then w else w + 1) else w % 2 + 2 * SetBit(w / 2, p - 1)
  }

  function ClearBit(w: nat, p: nat): nat {
    if p == 0 then w - w % 2 else w % 2 + 2 * ClearBit(w / 2, p - 1)
  }

  lemma {:induction false} SetBitBits(w: nat, p: nat, q: nat)
    ensures Bit(SetBit(w, p), q) <==> Bit(w, q) || p == q
  {
    if p > 0 && q > 0 {
      SetBitBits(w / 2, p - 1, q - 1);
    }
  }

  lemma {:induction false} ClearBitBits(w: nat, p: nat, q: nat)
    ensures Bit(ClearBit(w, p), q) <==> Bit(w, q) && p != q
  {
    if p > 0 && q > 0 {
      ClearBitBits(w / 2, p - 1, q - 1);
    }
  }

  /** A word is zero iff it has no bit. */
  lemma {:induction false} SomeBit(w: nat) returns (p: nat)
    requires w > 0
    ensures Bit(w, p)
    decreases w
  {
    if w % 2 == 1 {
      p := 0;
    } else {
      p := SomeBit(w / 2);
      p := p + 1;
    }
  }

  lemma {:induction false} NoBit(p: nat)
    ensures !Bit(0, p)
  {
    if p > 0 { NoBit(p - 1); }
  }

  /** p is the lowest bit of w. */
  ghost predicate Lowest(w: nat, p: nat) {
    Bit(w, p) && forall q: nat :: q < p ==> !Bit(w, q)
  }

  lemma LowestOdd(w: nat)
    requires w % 2 == 1
    ensures Lowest(w, 0)
  {
  }

  lemma LowestDouble(w: nat, p: nat)
    requires Lowest(w, p)
    ensures Lowest(2 * w, p + 1)
  {
    forall q: nat | q < p + 1 ensures !Bit(2 * w, q) {
      if q > 0 { assert !Bit(w, q - 1); }
    }
  }

  // ----- the table -----

  /** A row of __lowest_bit_bitmap: the sixteen rows differ in their first entry only. */
  function Row(first: nat): seq<nat> {
    [first, 0, 1, 0, 2, 0, 1, 0, 3, 0, 1, 0, 2, 0, 1, 0]
  }

  const FIRSTS: seq<nat> := [0, 4, 5, 4, 6, 4, 5, 4, 7, 4, 5, 4, 6, 4, 5, 4]

  /** __lowest_bit_bitmap[i]. */
  function Entry(i: nat): nat
    requires i < 256
  {
    Row(FIRSTS[i / 16])[i % 16]
  }

  lemma RowAt(first: nat, c: nat)
    requires c < 16
    ensures Row(first)[c] == if c == 0 then first else if c % 2 == 1 then 0 else if c % 4 == 2 then 1
            else if c % 8 == 4 then 2 else 3
  {
  }

  lemma FirstAt(r: nat)
    requires 0 < r < 16
    ensures FIRSTS[r] == if r % 2 == 1 then 4 else if r % 4 == 2 then 5 else if r % 8 == 4 then 6 else 7
  {
  }

  /** Lowest bit of an entry index below 16, and of its sixteenth part otherwise. */
  function Nibble(c: nat): nat {
    if c % 2 == 1 then 0 else if c % 4 == 2 then 1 else if c % 8 == 4 then 2 else 3
  }

  lemma EntryValue(i: nat, r: nat, c: nat)
    requires i == 16 * r + c && r < 16 && c < 16 && i > 0
    ensures Entry(i) == if c == 0 then 4 + Nibble(r) else Nibble(c)
  {
    hide Row;
    assert i / 16 == r && i % 16 == c;
    RowAt(FIRSTS[r], c);
    if c == 0 { FirstAt(r); }
  }

  lemma NibbleHalf(c: nat)
    requires 0 < c < 16 && c % 2 == 0
    ensures Nibble(c) == 1 + Nibble(c / 2) == 1 + Nibble(8 + c / 2)
  {
  }

  /** The table obeys the recurrence of lowest bits. */
  lemma EntryLaw(i: nat, r: nat, c: nat)
    requires i == 16 * r + c && r < 16 && c < 16 && i > 0
    ensures i % 2 == 1 ==> Entry(i) == 0
    ensures i % 2 == 0 ==> Entry(i) == 1 + Entry(i / 2)
  {
    hide Entry, Nibble;
    EntryValue(i, r, c);
    assert c % 2 == 1 ==> Nibble(c) == 0 by { NibbleOdd(c); }
    if c % 2 == 0 {
      var h := if r % 2 == 0 then c / 2 else 8 + c / 2;
      EntryValue(i / 2, r / 2, h);
      if c != 0 {
        NibbleHalf(c);
      } else if r % 2 == 0 {
        NibbleHalf(r);
      } else {
        NibbleOdd(r);
        NibbleEight();
      }
    }
  }

  lemma NibbleOdd(c: nat)
    ensures c % 2 == 1 ==> Nibble(c) == 0
  {
  }

  lemma NibbleEight()
    ensures Nibble(8) == 3
  {
  }

  lemma {:induction false} EntryIsLowest(i: nat)
    requires 0 < i < 256
    ensures Lowest(i, Entry(i))
    decreases i
  {
    hide Entry, Lowest;
    EntryLaw(i, i / 16, i % 16);
    if i % 2 == 1 {
      LowestOdd(i);
    } else {
      EntryIsLowest(i / 2);
      LowestDouble(i / 2, Entry(i / 2));
      assert 2 * (i / 2) == i;
    }
  }

  // ----- __rt_ffs -----

  /** One byte further up. */
  lemma LowestShifted(x: nat, p: nat)
    requires Lowest(x, p)
    ensures Lowest(256 * x, p + 8)
  {
    hide Lowest;
    LowestDouble(x, p);
    LowestDouble(2 * x, p + 1);
    LowestDouble(4 * x, p + 2);
    LowestDouble(8 * x, p + 3);
    LowestDouble(16 * x, p + 4);
    LowestDouble(32 * x, p + 5);
    LowestDouble(64 * x, p + 6);
    LowestDouble(128 * x, p + 7);
  }

  function Pow2(k: nat): nat {
    if k == 0 then 1 else 2 * Pow2(k - 1)
  }

  /** The low k bits of b + 2^k * x are those of b. */
  lemma {:induction false} LowBits(b: nat, x: nat, k: nat, q: nat)
    requires q < k
    ensures Bit(b + Pow2(k) * x, q) <==> Bit(b, q)
  {
    var y := Pow2(k - 1) * x;
    assert Pow2(k) * x == 2 * y;
    if q > 0 {
      assert (b + 2 * y) / 2 == b / 2 + y;
      LowBits(b / 2, x, k - 1, q - 1);
    }
  }

  /** The lowest bit of a word is that of its low byte, if it has one. */
  lemma LowestOfByte(b: nat, x: nat)
    requires 0 < b < 256
    ensures Lowest(b + 256 * x, Entry(b))
  {
    hide Entry;
    var p := Entry(b);
    EntryIsLowest(b);
    EntrySmall(b);
    PowEight();
    LowBits(b, x, 8, p);
    var w := b + 256 * x;
    forall q: nat | q < p ensures !Bit(w, q) {
      LowBits(b, x, 8, q);
    }
  }

  lemma PowEight()
    ensures Pow2(8) == 256
  {
    assert Pow2(4) == 16;
  }

  lemma EntrySmall(i: nat)
    requires 0 < i < 256
    ensures Entry(i) < 8
  {
    EntryValue(i, i / 16, i % 16);
  }

  /** The four bytes of a word, lowest first. */
  lemma Bytes(value: nat)
    requires value < 0x1_0000_0000
    ensures value == value % 256 + 256 * (value / 256)
    ensures value / 256 == value / 256 % 256 + 256 * (value / 65536)
    ensures value / 65536 == value / 65536 % 256 + 256 * (value / 16777216)
    ensures value / 16777216 < 256
  {
    assert value / 65536 == value / 256 / 256 && value / 16777216 == value / 65536 / 256;
  }

  /** __rt_ffs on the unsigned value of its argument: one plus the lowest bit, or 0 for 0. */
  method Ffs(value: nat) returns (r: nat)
    requires value < 0x1_0000_0000
    ensures value == 0 ==> r == 0
    ensures value != 0 ==> 1 <= r <= 32 && Lowest(value, r - 1)
  {
    hide Entry, Lowest;
    if value == 0 {
      return 0;
    }
    Bytes(value);
    var b0, b1, b2, b3 := value % 256, value / 256 % 256, value / 65536 % 256, value / 16777216;
    ghost var x1, x2, x3 := value / 256, value / 65536, value / 16777216;
    if b0 != 0 {
      LowestOfByte(b0, x1);
      EntrySmall(b0);
      return Entry(b0) + 1;
    }
    if b1 != 0 {
      LowestOfByte(b1, x2);
      EntrySmall(b1);
      LowestShifted(x1, Entry(b1));
      return Entry(b1) + 9;
    }
    if b2 != 0 {
      LowestOfByte(b2, x3);
      EntrySmall(b2);
      LowestShifted(x2, Entry(b2));
      LowestShifted(x1, Entry(b2) + 8);
      return Entry(b2) + 17;
    }
    LowestOfByte(b3, 0);
    EntrySmall(b3);
    LowestShifted(x3, Entry(b3));
    LowestShifted(x2, Entry(b3) + 8);
    LowestShifted(x1, Entry(b3) + 16);
    return Entry(b3) + 25;
  }

  // ----- ready bitmaps -----

  lemma {:induction false} SetBound(w: nat, p: nat, k: nat)
    requires p < k && w < Pow2(k)
    ensures SetBit(w, p) < Pow2(k)
  {
    hide Pow2;
    var m := Pow2(k - 1);
    assert Pow2(k) == 2 * m by { PowDouble(k); }
    if p > 0 {
      SetBound(w / 2, p - 1, k - 1);
    }
  }

  lemma {:induction false} ClearBound(w: nat, p: nat)
    ensures ClearBit(w, p) <= w
  {
    if p > 0 {
      ClearBound(w / 2, p - 1);
    }
  }

  lemma PowDouble(k: nat)
    requires k > 0
    ensures Pow2(k) == 2 * Pow2(k - 1)
  {
  }

  lemma {:induction false} NoHighBit(w: nat, p: nat, k: nat)
    requires k <= p && w < Pow2(k)
    ensures !Bit(w, p)
  {
    if p > 0 && k > 0 {
      NoHighBit(w / 2, p - 1, k - 1);
    } else {
      NoBit(p);
    }
  }

  /** The two-level bitmap used for more than 32 priorities. */
  class ReadyTable {
    var group: nat             // rt_thread_ready_priority_group
    var table: seq<nat>        // rt_thread_ready_table
    ghost var ready: set<nat>  // the priorities with a ready thread

    ghost predicate Valid()
      reads this
    {
      && |table| == 32 && group < Pow2(32)
      && (forall n :: 0 <= n < 32 ==> table[n] < Pow2(8))
      && (forall p :: p in ready ==> p < 256)
      && (forall n: nat, b: nat :: n < 32 && b < 8 ==> (Bit(table[n], b) <==> 8 * n + b in ready))
      && (forall n: nat :: n < 32 ==> (Bit(group, n) <==> table[n] != 0))
    }

    constructor ()
      ensures Valid() && ready == {}
    {
      group := 0;
      table := seq(32, _ => 0);
      ready := {};
      new;
      assert Pow2(8) > 0 && Pow2(32) > 0 by { PowPositive(8); PowPositive(32); }
      forall n: nat ensures !Bit(0, n) { NoBit(n); }
    }

    /** The bitmap part of rt_schedule_insert_thread for priority p, number = p >> 3, high_mask = 1 << (p & 7). */
    method Insert(p: nat)
      requires Valid() && p < 256
      modifies this
      ensures Valid() && ready == old(ready) + {p}
    {
      hide SetBit, Bit, Pow2;
      var number, bit := p / 8, p % 8;
      SetBoth(table[number], bit, group, number);
      table := table[number := SetBit(table[number], bit)];
      group := SetBit(group, number);
      ready := ready + {p};
    }

    /** The bitmap part of rt_schedule_remove_thread once the list of priority p is empty. */
    method Remove(p: nat)
      requires Valid() && p < 256
      modifies this
      ensures Valid() && ready == old(ready) - {p}
    {
      hide ClearBit, Bit, Pow2;
      var number, bit := p / 8, p % 8;
      ClearBoth(table[number], bit, group, number);
      table := table[number := ClearBit(table[number], bit)];
      if table[number] == 0 {
        group := ClearBit(group, number);
      }
      ready := ready - {p};
    }

    /** _scheduler_get_highest_priority_thread: the most urgent ready priority. */
    method Highest() returns (p: nat)
      requires Valid() && ready != {}
      ensures p in ready && forall q :: q in ready ==> p <= q
    {
      hide Bit, Pow2;
      SomeReady();
      assert Pow2(32) == 0x1_0000_0000 && Pow2(8) == 256 by { PowEight(); PowWord(); }
      var number := Ffs(group);
      number := number - 1;
      BelowGroup(number);
      var low := Ffs(table[number]);
      p := 8 * number + low - 1;
      BelowTable(number, low - 1);
      forall q | q in ready ensures p <= q {
        assert q == 8 * (q / 8) + q % 8;
        assert Bit(table[q / 8], q % 8);
        HasBit(table[q / 8], q % 8);
      }
    }

    lemma SomeReady()
      requires Valid() && ready != {}
      ensures group != 0
    {
      var p :| p in ready;
      assert p == 8 * (p / 8) + p % 8;
      assert Bit(table[p / 8], p % 8);
      HasBit(table[p / 8], p % 8);
      assert Bit(group, p / 8);
      HasBit(group, p / 8);
    }

    lemma BelowGroup(n: nat)
      requires Valid() && Lowest(group, n)
      ensures n < 32 && table[n] != 0 && forall m: nat :: m < n ==> table[m] == 0
    {
      if n >= 32 { NoHighBit(group, n, 32); }
    }

    lemma BelowTable(n: nat, b: nat)
      requires Valid() && n < 32 && Lowest(table[n], b)
      ensures b < 8 && 8 * n + b in ready
    {
      if b >= 8 { NoHighBit(table[n], b, 8); }
    }
  }

  lemma PowPositive(k: nat)
    ensures Pow2(k) > 0
  {
  }

  lemma PowWord()
    ensures Pow2(32) == 0x1_0000_0000
  {
    assert Pow2(4) == 16;
    assert Pow2(8) == 256;
    assert Pow2(12) == 4096;
    assert Pow2(16) == 65536;
    assert Pow2(20) == 1048576;
    assert Pow2(24) == 16777216;
    assert Pow2(28) == 268435456;
  }

  lemma HasBit(w: nat, p: nat)
    requires Bit(w, p)
    ensures w != 0
  {
    if w == 0 { NoBit(p); }
  }

  lemma SetBoth(w: nat, b: nat, g: nat, n: nat)
    requires w < Pow2(8) && b < 8 && g < Pow2(32) && n < 32
    ensures SetBit(w, b) < Pow2(8) && SetBit(g, n) < Pow2(32) && SetBit(w, b) != 0
    ensures forall q: nat :: Bit(SetBit(w, b), q) <==> Bit(w, q) || q == b
    ensures forall q: nat :: Bit(SetBit(g, n), q) <==> Bit(g, q) || q == n
  {
    hide SetBit, Pow2;
    SetBound(w, b, 8);
    SetBound(g, n, 32);
    forall q: nat ensures Bit(SetBit(w, b), q) <==> Bit(w, q) || q == b { SetBitBits(w, b, q); }
    forall q: nat ensures Bit(SetBit(g, n), q) <==> Bit(g, q) || q == n { SetBitBits(g, n, q); }
    HasBit(SetBit(w, b), b);
  }

  lemma ClearBoth(w: nat, b: nat, g: nat, n: nat)
    requires w < Pow2(8) && b < 8 && g < Pow2(32) && n < 32
    ensures ClearBit(w, b) < Pow2(8) && ClearBit(g, n) < Pow2(32) && (w == 0 ==> ClearBit(w, b) == 0)
    ensures forall q: nat :: Bit(ClearBit(w, b), q) <==> Bit(w, q) && q != b
    ensures forall q: nat :: Bit(ClearBit(g, n), q) <==> Bit(g, q) && q != n
  {
    hide Pow2;
    ClearBound(w, b);
    ClearBound(g, n);
    forall q: nat ensures Bit(ClearBit(w, b), q) <==> Bit(w, q) && q != b { ClearBitBits(w, b, q); }
    forall q: nat ensures Bit(ClearBit(g, n), q) <==> Bit(g, q) && q != n { ClearBitBits(g, n, q); }
  }
}
