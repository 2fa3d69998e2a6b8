// The 64-bit words in which page tables hold their entries: the bit operations
// of src/arch/amd64/mmu.c are the operations on entries that Mmu uses.
module EntryWords {
  import opened Arithmetic
  import opened Words
  import opened PageTables
  import opened DirectoryCopy

  const WIDTH: nat := 64
  const FRAME_BITS: nat := 52
  const OFFSET_BITS: nat := 12

  function BitOf(f: Flag): (k: nat)
    ensures k < OFFSET_BITS
  {
    match f
    case Present => 0
    case ReadWrite => 1
    case User => 2
    case WriteThrough => 3
    case CacheDisable => 4
    case Accessed => 5
    case Dirty => 6
    case PageSize => 7
    case Global => 8
    case Cow => 9
    case Spare10 => 10
    case Spare11 => 11
  }

  // The flags of a word.
  function FlagsOf(w: nat): set<Flag> {
    set f: Flag | Bit(w, BitOf(f))
  }

  // w >> k
  function Shift(w: nat, k: nat): nat {
    if k == 0 then w else Shift(w / 2, k - 1)
  }

  // The entry that the processor reads in a word.
  function EntryOf(w: nat): Entry {
    Entry(Shift(w, OFFSET_BITS), FlagsOf(w))
  }

  // ----- Shifts of the bit operations

  lemma {:induction false} ShiftOr(a: nat, b: nat, n: nat, k: nat)
    requires k <= n
    ensures Shift(Or(a, b, n), k) == Or(Shift(a, k), Shift(b, k), n - k)
  {
    if k > 0 {
      LowAndHigh(if a % 2 + b % 2 > 0 then 1 else 0, Or(a / 2, b / 2, n - 1));
      ShiftOr(a / 2, b / 2, n - 1, k - 1);
    }
  }

  lemma {:induction false} OrZero(a: nat, n: nat)
    requires a < Pow2(n)
    ensures Or(a, 0, n) == a
  {
    if n > 0 { OrZero(a / 2, n - 1); }
  }

  lemma {:induction false} ShiftSmall(a: nat, k: nat)
    requires a < Pow2(k)
    ensures Shift(a, k) == 0
  {
    if k > 0 { ShiftSmall(a / 2, k - 1); }
  }

  lemma {:induction false} ShiftBound(a: nat, n: nat, k: nat)
    requires k <= n && a < Pow2(n)
    ensures Shift(a, k) < Pow2(n - k)
  {
    if k > 0 { ShiftBound(a / 2, n - 1, k - 1); }
  }

  // w << k
  function Raised(w: nat, k: nat): nat {
    if k == 0 then w else 2 * Raised(w, k - 1)
  }

  lemma {:induction false} ShiftRaised(w: nat, k: nat)
    ensures Shift(Raised(w, k), k) == w
  {
    if k > 0 {
      LowAndHigh(0, Raised(w, k - 1));
      ShiftRaised(w, k - 1);
    }
  }

  lemma {:induction false} RaisedBit(w: nat, k: nat, j: nat)
    requires j < k
    ensures !Bit(Raised(w, k), j)
  {
    LowAndHigh(0, Raised(w, k - 1));
    if j > 0 { RaisedBit(w, k - 1, j - 1); }
  }

  lemma {:induction false} AndOnes(a: nat, n: nat)
    requires a < Pow2(n)
    ensures And(a, Not(0, n), n) == a
  {
    if n > 0 {
      LowAndHigh(1, Not(0, n - 1));
      AndOnes(a / 2, n - 1);
    }
  }

  // w & ~(2^k - 1) clears the lowest k bits.
  lemma {:induction false} Masked(w: nat, n: nat, k: nat)
    requires k <= n && w < Pow2(n)
    ensures And(w, Not(Pow2(k) - 1, n), n) == Raised(Shift(w, k), k)
  {
    if k == 0 {
      AndOnes(w, n);
    } else {
      LowAndHigh(1, Pow2(k - 1) - 1);
      assert Pow2(k) - 1 == 1 + 2 * (Pow2(k - 1) - 1);
      LowAndHigh(0, Not(Pow2(k - 1) - 1, n - 1));
      Masked(w / 2, n - 1, k - 1);
    }
  }

  // w & (1 << k) is zero exactly when bit k is clear.
  lemma {:induction false} AndPow(w: nat, n: nat, k: nat)
    requires k < n
    ensures And(w, Pow2(k), n) == 0 <==> !Bit(w, k)
  {
    TestValue(w, n, k);
    if And(w, Pow2(k), n) != 0 { AndPowValue(w, n, k); }
  }

  lemma {:induction false} AndPowValue(w: nat, n: nat, k: nat)
    requires k < n
    ensures And(w, Pow2(k), n) == 0 || And(w, Pow2(k), n) == Pow2(k)
  {
    if k == 0 {
      AndZero(w / 2, n - 1);
    } else {
      LowAndHigh(0, Pow2(k - 1));
      AndPowValue(w / 2, n - 1, k - 1);
    }
  }

  // ----- No word is lost

  function FlagAt(k: nat): (f: Flag)
    requires k < OFFSET_BITS
    ensures BitOf(f) == k
  {
    match k
    case 0 => Present
    case 1 => ReadWrite
    case 2 => User
    case 3 => WriteThrough
    case 4 => CacheDisable
    case 5 => Accessed
    case 6 => Dirty
    case 7 => PageSize
    case 8 => Global
    case 9 => Cow
    case 10 => Spare10
    case 11 => Spare11
  }

  lemma {:induction false} SameBits(w: nat, x: nat, k: nat)
    requires Shift(w, k) == Shift(x, k) && forall j :: 0 <= j < k ==> Bit(w, j) == Bit(x, j)
    ensures w == x
  {
    if k > 0 {
      forall j | 0 <= j < k - 1 ensures Bit(w / 2, j) == Bit(x / 2, j) { assert Bit(w, j + 1) == Bit(x, j + 1); }
      SameBits(w / 2, x / 2, k - 1);
      assert Bit(w, 0) == Bit(x, 0);
    }
  }

  // Two words that read as the same entry are the same word.
  lemma {:induction false} OneWord(w: nat, x: nat)
    requires EntryOf(w) == EntryOf(x)
    ensures w == x
  {
    forall j | 0 <= j < OFFSET_BITS ensures Bit(w, j) == Bit(x, j) {
      assert FlagAt(j) in EntryOf(w).flags <==> FlagAt(j) in EntryOf(x).flags;
    }
    SameBits(w, x, OFFSET_BITS);
  }

  // ----- What the kernel does with words

  // addr | flags for a page address: the entry of the frame with the flags.
  lemma {:induction false} PackedEntry(frame: nat, flags: nat)
    requires frame < Pow2(FRAME_BITS) && flags < Pow2(OFFSET_BITS)
    ensures EntryOf(Or(Raised(frame, OFFSET_BITS), flags, WIDTH)) == Entry(frame, FlagsOf(flags))
  {
    var a, w := Raised(frame, OFFSET_BITS), Or(Raised(frame, OFFSET_BITS), flags, WIDTH);
    ShiftOr(a, flags, WIDTH, OFFSET_BITS);
    ShiftRaised(frame, OFFSET_BITS);
    ShiftSmall(flags, OFFSET_BITS);
    OrZero(frame, FRAME_BITS);
    forall f: Flag ensures f in FlagsOf(w) <==> f in FlagsOf(flags) {
      OrBit(a, flags, WIDTH, BitOf(f));
      RaisedBit(frame, OFFSET_BITS, BitOf(f));
    }
  }

  // entry |= flags keeps the frame and adds the flags.
  lemma {:induction false} FlagsAdded(w: nat, flags: nat)
    requires w < Pow2(WIDTH) && flags < Pow2(OFFSET_BITS)
    ensures EntryOf(Or(w, flags, WIDTH)) == Entry(EntryOf(w).frame, EntryOf(w).flags + FlagsOf(flags))
  {
    ShiftOr(w, flags, WIDTH, OFFSET_BITS);
    ShiftSmall(flags, OFFSET_BITS);
    ShiftBound(w, WIDTH, OFFSET_BITS);
    OrZero(Shift(w, OFFSET_BITS), FRAME_BITS);
    forall f: Flag ensures f in FlagsOf(Or(w, flags, WIDTH)) <==> f in FlagsOf(w) + FlagsOf(flags) {
      OrBit(w, flags, WIDTH, BitOf(f));
    }
  }

  // entry & MM_PRESENT tests the flag.
  lemma {:induction false} PresentTest(w: nat)
    ensures And(w, 1, WIDTH) != 0 <==> Present in EntryOf(w).flags
  {
    assert Pow2(0) == 1;
    AndPow(w, WIDTH, 0);
  }

  // entry & ~0xfff
  function PageAddress(w: nat): nat {
    And(w, Not(Pow2(OFFSET_BITS) - 1, WIDTH), WIDTH)
  }

  // That is the address of the frame.
  lemma {:induction false} FrameAddress(w: nat)
    requires w < Pow2(WIDTH)
    ensures PageAddress(w) == Raised(EntryOf(w).frame, OFFSET_BITS)
  {
    Masked(w, WIDTH, OFFSET_BITS);
  }

  // MM_COW | MM_READONLY | MM_PRESENT | MM_USER
  const COW_FLAGS: nat := 0x205

  lemma {:induction false} CowFlags()
    ensures COW_FLAGS < Pow2(OFFSET_BITS) && FlagsOf(COW_FLAGS) == {Cow, Present, User}
  {
    assert Pow2(4) == 16 && Pow2(8) == 256 && Pow2(12) == 4096;
    forall f: Flag ensures f in FlagsOf(COW_FLAGS) <==> f in {Cow, Present, User} {
      CowBit(BitOf(f));
    }
  }

  lemma {:induction false} CowBit(k: nat)
    requires k < OFFSET_BITS
    ensures Bit(COW_FLAGS, k) <==> k in {0, 2, 9}
  {
    BitShift(COW_FLAGS, 3, k);
    if k >= 3 { ShiftBit(6, k - 3); }
    assert Pow2(6) == 0x40 && Shift(COW_FLAGS, 3) == 0x40;
  }

  lemma {:induction false} BitShift(w: nat, i: nat, k: nat)
    ensures k >= i ==> Bit(w, k) == Bit(Shift(w, i), k - i)
  {
    if k >= i > 0 { BitShift(w / 2, i - 1, k - 1); }
  }

  // Resetting the flags of a leaf and setting those makes the copy-on-write leaf
  // of the same frame.
  lemma {:induction false} CowWord(w: nat)
    requires w < Pow2(WIDTH)
    ensures EntryOf(Or(PageAddress(w), COW_FLAGS, WIDTH)) == CowEntry(EntryOf(w))
  {
    FrameBound(w);
    FrameAddress(w);
    CowAt(PageAddress(w), EntryOf(w));
  }

  lemma {:induction false} CowAt(addr: nat, e: Entry)
    requires e.frame < Pow2(FRAME_BITS) && addr == Raised(e.frame, OFFSET_BITS)
    ensures EntryOf(Or(addr, COW_FLAGS, WIDTH)) == CowEntry(e)
  {
    CowFlags();
    PackedEntry(e.frame, COW_FLAGS);
  }

  lemma {:induction false} FrameBound(w: nat)
    requires w < Pow2(WIDTH)
    ensures EntryOf(w).frame < Pow2(FRAME_BITS)
  {
    ShiftBound(w, WIDTH, OFFSET_BITS);
  }

  // MM_2MB
  const LARGE_FLAG: nat := 0x80

  lemma {:induction false} LargeFlag()
    ensures LARGE_FLAG < Pow2(OFFSET_BITS) && FlagsOf(LARGE_FLAG) == {PageSize}
  {
    assert Pow2(4) == 16 && Pow2(7) == LARGE_FLAG && Pow2(8) == 256 && Pow2(12) == 4096;
    forall f: Flag ensures f in FlagsOf(LARGE_FLAG) <==> f == PageSize { ShiftBit(7, BitOf(f)); }
  }

  lemma {:induction false} OrBound(a: nat, b: nat, n: nat)
    ensures Or(a, b, n) < Pow2(n)
  {
    if n > 0 { OrBound(a / 2, b / 2, n - 1); }
  }

  // For a 2 MB page MM_2MB is set, too.
  lemma {:induction false} CowLargeWord(w: nat)
    requires w < Pow2(WIDTH)
    ensures EntryOf(Or(Or(PageAddress(w), COW_FLAGS, WIDTH), LARGE_FLAG, WIDTH)) == CowLarge(EntryOf(w))
  {
    CowWord(w);
    OrBound(PageAddress(w), COW_FLAGS, WIDTH);
    LargeAdded(Or(PageAddress(w), COW_FLAGS, WIDTH), EntryOf(w));
  }

  lemma {:induction false} LargeAdded(leaf: nat, e: Entry)
    requires leaf < Pow2(WIDTH) && EntryOf(leaf) == CowEntry(e)
    ensures EntryOf(Or(leaf, LARGE_FLAG, WIDTH)) == CowLarge(e)
  {
    LargeFlag();
    FlagsAdded(leaf, LARGE_FLAG);
    assert {Cow, Present, User} + {PageSize} == {Cow, Present, User, PageSize};
  }
}
