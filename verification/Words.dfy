/** 32-bit words: single bits of the page bitmap, and the fields of paging entries. */
module Words {
  const ENTRIES: nat := 1024

  // ----- single bits

  function Mask(k: nat): bv32
    requires k < 32
  {
    1 << k
  }

  function And(w: bv32, m: bv32): bv32 {
    w & m
  }

  predicate Bit(w: bv32, k: nat)
    requires k < 32
  {
    And(w, Mask(k)) != 0
  }

  function Or(w: bv32, m: bv32): bv32 {
    w | m
  }

  function AndNot(w: bv32, m: bv32): bv32 {
    w & !m
  }

  predicate OneBit(m: bv32) {
    m != 0 && m & (m - 1) == 0
  }

  /** A mask has one bit, and masks of different positions share none. */
  lemma MaskIsOneBit(k: nat)
    requires k < 32
    ensures Mask(k) != 0 && OneBit(Mask(k))
  {
  }

  lemma MaskIsInjective(j: nat, k: nat)
    requires j < 32 && k < 32 && j != k
    ensures Mask(j) != Mask(k)
  {
  }

  lemma OneBitsShareNone(m: bv32, n: bv32)
    requires OneBit(m) && OneBit(n) && m != n
    ensures And(m, n) == 0
  {
  }

  lemma MasksShareNone(j: nat, k: nat)
    requires j < 32 && k < 32 && j != k
    ensures And(Mask(j), Mask(k)) == 0
  {
    hide Mask, OneBit, And;
    MaskIsOneBit(j);
    MaskIsOneBit(k);
    MaskIsInjective(j, k);
    OneBitsShareNone(Mask(j), Mask(k));
  }

  lemma OtherBitKept(w: bv32, m: bv32, n: bv32)
    requires And(m, n) == 0
    ensures And(Or(w, m), n) == And(w, n)
  {
    hide And, Or;
    AndDistributes(w, m, n);
    OrZero(And(w, n));
  }

  lemma AndDistributes(w: bv32, m: bv32, n: bv32)
    ensures And(Or(w, m), n) == Or(And(w, n), And(m, n))
  {
  }

  lemma OrZero(w: bv32)
    ensures Or(w, 0) == w
  {
  }

  lemma OtherBitLeft(w: bv32, m: bv32, n: bv32)
    requires And(m, n) == 0
    ensures And(AndNot(w, m), n) == And(w, n)
  {
    assert n & !m == n by { assert m & n == 0; }
    assert (w & !m) & n == w & (n & !m);
  }

  lemma OwnBitChanged(w: bv32, m: bv32)
    ensures And(Or(w, m), m) == m
    ensures And(AndNot(w, m), m) == 0
  {
  }

  /** Setting or clearing one bit changes that bit only. */
  lemma BitAfter(w: bv32, j: nat, k: nat)
    requires j < 32 && k < 32
    ensures Bit(Or(w, Mask(j)), k) <==> j == k || Bit(w, k)
    ensures Bit(AndNot(w, Mask(j)), k) <==> j != k && Bit(w, k)
  {
    hide Mask, And, Or, AndNot;
    if j == k {
      MaskIsOneBit(k);
      OwnBitChanged(w, Mask(k));
    } else {
      MasksShareNone(j, k);
      OtherBitKept(w, Mask(j), Mask(k));
      OtherBitLeft(w, Mask(j), Mask(k));
    }
  }

  /** A word that is not zero has a bit. */
  lemma HasBit(w: bv32) returns (k: nat)
    requires w != 0
    ensures k < 32 && Bit(w, k)
  {
    hide Mask;
    SomeMask(w);
    k :| k < 32 && Bit(w, k);
  }

  lemma SomeMask(w: bv32)
    requires w != 0
    ensures exists k: nat :: k < 32 && Bit(w, k)
  {
    hide And, Bit;
    SomeByte(w);
    if And(w, 0xFF) != 0 {
      BitOfByte0(w);
    } else if And(w, 0xFF00) != 0 {
      BitOfByte1(w);
    } else if And(w, 0xFF_0000) != 0 {
      BitOfByte2(w);
    } else {
      BitOfByte3(w);
    }
  }

  lemma SomeByte(w: bv32)
    requires w != 0
    ensures And(w, 0xFF) != 0 || And(w, 0xFF00) != 0 || And(w, 0xFF_0000) != 0 || And(w, 0xFF00_0000) != 0
  {
  }

  lemma BitOfByte0(w: bv32)
    requires And(w, 0xFF) != 0
    ensures exists k: nat :: k < 32 && Bit(w, k)
  {
    assert Bit(w, 0) || Bit(w, 1) || Bit(w, 2) || Bit(w, 3) || Bit(w, 4) || Bit(w, 5) || Bit(w, 6) || Bit(w, 7);
  }

  lemma BitOfByte1(w: bv32)
    requires And(w, 0xFF00) != 0
    ensures exists k: nat :: k < 32 && Bit(w, k)
  {
    assert Bit(w, 8) || Bit(w, 9) || Bit(w, 10) || Bit(w, 11) || Bit(w, 12) || Bit(w, 13) || Bit(w, 14) || Bit(w, 15);
  }

  lemma BitOfByte2(w: bv32)
    requires And(w, 0xFF_0000) != 0
    ensures exists k: nat :: k < 32 && Bit(w, k)
  {
    assert Bit(w, 16) || Bit(w, 17) || Bit(w, 18) || Bit(w, 19) || Bit(w, 20) || Bit(w, 21) || Bit(w, 22) || Bit(w, 23);
  }

  lemma BitOfByte3(w: bv32)
    requires And(w, 0xFF00_0000) != 0
    ensures exists k: nat :: k < 32 && Bit(w, k)
  {
    assert Bit(w, 24) || Bit(w, 25) || Bit(w, 26) || Bit(w, 27) || Bit(w, 28) || Bit(w, 29) || Bit(w, 30) || Bit(w, 31);
  }

  // ----- words as numbers, byte by byte

  function Byte0(w: bv32): bv8 {
    (w & 0xFF) as bv8
  }

  function Byte1(w: bv32): bv8 {
    ((w >> 8) & 0xFF) as bv8
  }

  function Byte2(w: bv32): bv8 {
    ((w >> 16) & 0xFF) as bv8
  }

  function Byte3(w: bv32): bv8 {
    (w >> 24) as bv8
  }

  function Size(b: bv8): (n: nat)
    ensures n < 256
  {
    b as nat
  }

  /** The number that a word stands for. */
  function Magnitude(w: bv32): nat {
    ((Size(Byte3(w)) * 256 + Size(Byte2(w))) * 256 + Size(Byte1(w))) * 256 + Size(Byte0(w))
  }

  predicate Above(a: bv32, b: bv32) {
    a > b
  }

  predicate ByteAbove(a: bv8, b: bv8) {
    a > b
  }

  lemma SizeOrder(a: bv8, b: bv8)
    ensures ByteAbove(a, b) <==> Size(a) > Size(b)
    ensures a == b <==> Size(a) == Size(b)
  {
  }

  lemma HighByteDecides(a: bv32, b: bv32)
    requires ByteAbove(Byte3(a), Byte3(b))
    ensures Above(a, b)
  {
  }

  lemma NextByteDecides(a: bv32, b: bv32)
    requires Byte3(a) == Byte3(b) && ByteAbove(Byte2(a), Byte2(b))
    ensures Above(a, b)
  {
  }

  lemma ThirdByteDecides(a: bv32, b: bv32)
    requires Byte3(a) == Byte3(b) && Byte2(a) == Byte2(b) && ByteAbove(Byte1(a), Byte1(b))
    ensures Above(a, b)
  {
  }

  lemma LowByteDecides(a: bv32, b: bv32)
    requires Byte3(a) == Byte3(b) && Byte2(a) == Byte2(b) && Byte1(a) == Byte1(b) && ByteAbove(Byte0(a), Byte0(b))
    ensures Above(a, b)
  {
  }

  lemma BytesDetermine(a: bv32, b: bv32)
    requires Byte3(a) == Byte3(b) && Byte2(a) == Byte2(b) && Byte1(a) == Byte1(b) && Byte0(a) == Byte0(b)
    ensures a == b
  {
  }

  lemma SizesOrder(a: bv32, b: bv32)
    ensures ByteAbove(Byte3(a), Byte3(b)) <==> Size(Byte3(a)) > Size(Byte3(b))
    ensures ByteAbove(Byte2(a), Byte2(b)) <==> Size(Byte2(a)) > Size(Byte2(b))
    ensures ByteAbove(Byte1(a), Byte1(b)) <==> Size(Byte1(a)) > Size(Byte1(b))
    ensures ByteAbove(Byte0(a), Byte0(b)) <==> Size(Byte0(a)) > Size(Byte0(b))
    ensures Byte3(a) == Byte3(b) <==> Size(Byte3(a)) == Size(Byte3(b))
    ensures Byte2(a) == Byte2(b) <==> Size(Byte2(a)) == Size(Byte2(b))
    ensures Byte1(a) == Byte1(b) <==> Size(Byte1(a)) == Size(Byte1(b))
    ensures Byte0(a) == Byte0(b) <==> Size(Byte0(a)) == Size(Byte0(b))
  {
    hide Byte0, Byte1, Byte2, Byte3, ByteAbove, Size;
    SizeOrder(Byte3(a), Byte3(b));
    SizeOrder(Byte2(a), Byte2(b));
    SizeOrder(Byte1(a), Byte1(b));
    SizeOrder(Byte0(a), Byte0(b));
  }

  lemma GreaterIsAbove(a: bv32, b: bv32)
    requires Magnitude(a) > Magnitude(b)
    ensures Above(a, b)
  {
    hide Byte0, Byte1, Byte2, Byte3, ByteAbove, Size, Above;
    SizesOrder(a, b);
    if ByteAbove(Byte3(a), Byte3(b)) {
      HighByteDecides(a, b);
    } else if Byte3(a) == Byte3(b) && ByteAbove(Byte2(a), Byte2(b)) {
      NextByteDecides(a, b);
    } else if Byte3(a) == Byte3(b) && Byte2(a) == Byte2(b) && ByteAbove(Byte1(a), Byte1(b)) {
      ThirdByteDecides(a, b);
    } else {
      LowByteDecides(a, b);
    }
  }

  lemma MagnitudeDetermines(a: bv32, b: bv32)
    requires Magnitude(a) == Magnitude(b)
    ensures a == b
  {
    hide Byte0, Byte1, Byte2, Byte3, ByteAbove, Size;
    SizesOrder(a, b);
    BytesDetermine(a, b);
  }

  lemma AboveIsStrict(a: bv32, b: bv32)
    ensures Above(a, b) ==> !Above(b, a) && a != b
  {
  }

  /** Words compare as the numbers they stand for. */
  lemma AboveIff(a: bv32, b: bv32)
    ensures Above(a, b) <==> Magnitude(a) > Magnitude(b)
    ensures a == b <==> Magnitude(a) == Magnitude(b)
  {
    hide Magnitude, Above;
    AboveIsStrict(a, b);
    AboveIsStrict(b, a);
    if Magnitude(a) > Magnitude(b) {
      GreaterIsAbove(a, b);
    } else if Magnitude(a) < Magnitude(b) {
      GreaterIsAbove(b, a);
    } else {
      MagnitudeDetermines(a, b);
    }
  }

  lemma NoCarry(w: bv32)
    requires Byte0(w) != 255
    ensures Byte0(w + 1) == NextByte(Byte0(w))
    ensures Byte1(w + 1) == Byte1(w) && Byte2(w + 1) == Byte2(w) && Byte3(w + 1) == Byte3(w)
  {
  }

  lemma CarryOnce(w: bv32)
    requires Byte0(w) == 255 && Byte1(w) != 255
    ensures Byte0(w + 1) == 0 && Byte1(w + 1) == NextByte(Byte1(w))
    ensures Byte2(w + 1) == Byte2(w) && Byte3(w + 1) == Byte3(w)
  {
  }

  lemma CarryTwice(w: bv32)
    requires Byte0(w) == 255 && Byte1(w) == 255 && Byte2(w) != 255
    ensures Byte0(w + 1) == 0 && Byte1(w + 1) == 0 && Byte2(w + 1) == NextByte(Byte2(w)) && Byte3(w + 1) == Byte3(w)
  {
  }

  lemma CarryThrice(w: bv32)
    requires Byte0(w) == 255 && Byte1(w) == 255 && Byte2(w) == 255
    ensures Byte0(w + 1) == 0 && Byte1(w + 1) == 0 && Byte2(w + 1) == 0 && Byte3(w + 1) == NextByte(Byte3(w))
  {
  }

  function NextByte(b: bv8): bv8 {
    b + 1
  }

  lemma NextSize(b: bv8)
    ensures Size(NextByte(b)) == if b == 255 then 0 else Size(b) + 1
    ensures (b == 255 <==> Size(b) == 255) && Size(0) == 0
  {
  }

  /** Adding one to a word is adding one to its number, in 32 bits. */
  lemma IncrementMagnitude(w: bv32)
    ensures Magnitude(w + 1) == (Magnitude(w) + 1) % 0x1_0000_0000
  {
    hide Byte0, Byte1, Byte2, Byte3, NextByte, Size;
    NextSize(Byte0(w));
    NextSize(Byte1(w));
    NextSize(Byte2(w));
    NextSize(Byte3(w));
    if Byte0(w) != 255 {
      NoCarry(w);
    } else if Byte1(w) != 255 {
      CarryOnce(w);
    } else if Byte2(w) != 255 {
      CarryTwice(w);
    } else {
      CarryThrice(w);
    }
  }

  lemma ZeroMagnitude(w: bv32)
    ensures Magnitude(w) == 0 <==> w == 0
  {
    hide Magnitude;
    MagnitudeOfZero();
    AboveIff(w, 0);
  }

  lemma MagnitudeOfZero()
    ensures Magnitude(0) == 0
  {
  }

  // ----- page directory and page table entries

  function DirIndex(v: bv32): (i: nat)
    ensures i < ENTRIES
  {
    (v >> 22) as nat
  }

  function TableIndex(v: bv32): (i: nat)
    ensures i < ENTRIES
  {
    ((v >> 12) & 0x3FF) as nat
  }

  /** The number of the page that an address is on. */
  function PageOf(v: bv32): bv32 {
    v >> 12
  }

  predicate Present(e: bv32) {
    e & 1 != 0
  }

  predicate Writable(e: bv32) {
    e & 2 != 0
  }

  predicate User(e: bv32) {
    e & 4 != 0
  }

  function Low6(n: bv32): bv6 {
    (n & 63) as bv6
  }

  function HighDigits(n: bv32): nat {
    (n >> 12) as nat
  }

  function MiddleDigit(n: bv32): (d: nat)
    ensures d < 64
  {
    Low6(n >> 6) as nat
  }

  function LowDigit(n: bv32): (d: nat)
    ensures d < 64
  {
    Low6(n) as nat
  }

  /** The number that a word stands for, by its base-64 digits. */
  function Value(n: bv32): nat {
    4096 * HighDigits(n) + 64 * MiddleDigit(n) + LowDigit(n)
  }

  /** The frame that an entry or an address points into. */
  function FrameOf(e: bv32): nat {
    Value(PageOf(e))
  }

  function Digit(d: nat): bv6
    requires d < 64
  {
    d as bv6
  }

  function Join(a: bv6, b: bv6): bv32 {
    ((a as bv32) << 6) | (b as bv32)
  }

  function PageNumber(frame: nat): bv32
    requires frame < 4096
  {
    Join(Digit(frame / 64), Digit(frame % 64))
  }

  function ShiftUp(n: bv32): bv32 {
    n << 12
  }

  function FrameAddress(frame: nat): bv32
    requires frame < 4096
  {
    ShiftUp(PageNumber(frame))
  }

  function AddFlags(address: bv32, flags: bv32): bv32 {
    address | (flags & 7)
  }

  function DirEntry(table: nat, flags: bv32): bv32
    requires table < 4096
  {
    AddFlags(FrameAddress(table), flags)
  }

  function AddUser(e: bv32): bv32 {
    e | 4
  }

  function PageEntry(phys: bv32, flags: bv32): bv32 {
    (phys & !0xFFF) | (flags & 0xFFF) | 1
  }

  // Facts about single words.

  lemma DigitValue(d: nat)
    requires d < 64
    ensures Digit(d) as nat == d
  {
  }

  lemma JoinSplits(a: bv6, b: bv6)
    ensures Low6(Join(a, b)) == b && Low6(Join(a, b) >> 6) == a
    ensures Join(a, b) >> 12 == 0
  {
  }

  lemma PageNumberIsFrame(frame: nat)
    requires frame < 4096
    ensures Value(PageNumber(frame)) == frame
  {
    hide Low6, Join, Digit;
    DigitValue(frame / 64);
    DigitValue(frame % 64);
    JoinSplits(Digit(frame / 64), Digit(frame % 64));
  }

  lemma PageNumberIsSmall(frame: nat)
    requires frame < 4096
    ensures PageNumber(frame) < 0x10_0000
  {
  }

  lemma ShiftBack(n: bv32)
    requires n < 0x10_0000
    ensures PageOf(ShiftUp(n)) == n
    ensures ShiftUp(n) & 0xFFF == 0
  {
  }

  lemma AddFlagsKeepsPage(address: bv32, flags: bv32)
    ensures PageOf(AddFlags(address, flags)) == PageOf(address)
  {
  }

  lemma AddFlagsBits(address: bv32, flags: bv32)
    requires address & 0xFFF == 0
    ensures Present(AddFlags(address, flags)) <==> Present(flags)
    ensures Writable(AddFlags(address, flags)) <==> Writable(flags)
    ensures User(AddFlags(address, flags)) <==> User(flags)
  {
  }

  lemma DirEntryBits(table: nat, flags: bv32)
    requires table < 4096
    ensures var e := DirEntry(table, flags);
      && FrameOf(e) == table
      && (Present(e) <==> Present(flags)) && (Writable(e) <==> Writable(flags)) && (User(e) <==> User(flags))
  {
    hide PageNumber, ShiftUp, AddFlags, PageOf, Present, Writable, User, Value;
    var n := PageNumber(table);
    PageNumberIsFrame(table);
    PageNumberIsSmall(table);
    ShiftBack(n);
    AddFlagsKeepsPage(ShiftUp(n), flags);
    AddFlagsBits(ShiftUp(n), flags);
  }

  lemma AddUserKeepsPage(e: bv32)
    ensures PageOf(AddUser(e)) == PageOf(e)
  {
  }

  lemma AddUserBits(e: bv32)
    ensures Present(AddUser(e)) <==> Present(e)
    ensures Writable(AddUser(e)) <==> Writable(e)
    ensures User(AddUser(e))
  {
  }

  lemma PageEntryKeepsPage(phys: bv32, flags: bv32)
    ensures PageOf(PageEntry(phys, flags)) == PageOf(phys)
  {
  }

  lemma PageEntryIsPresent(phys: bv32, flags: bv32)
    ensures Present(PageEntry(phys, flags))
  {
  }

  lemma PageEntryRights(phys: bv32, flags: bv32)
    ensures Writable(PageEntry(phys, flags)) <==> Writable(flags)
    ensures User(PageEntry(phys, flags)) <==> User(flags)
  {
  }

  lemma ZeroEntry()
    ensures !Present(0) && !User(0)
  {
  }

  /** The two indices of an address are its page number, split. */
  lemma IndicesSplitPage(v: bv32)
    ensures PageOf(v) == ((v >> 22) << 10) | ((v >> 12) & 0x3FF)
    ensures v >> 22 == PageOf(v) >> 10 && (v >> 12) & 0x3FF == PageOf(v) & 0x3FF
  {
  }

  lemma IndicesNamePage(v: bv32, w: bv32)
    ensures DirIndex(v) == DirIndex(w) && TableIndex(v) == TableIndex(w) <==> PageOf(v) == PageOf(w)
  {
    hide PageOf;
    IndicesSplitPage(v);
    IndicesSplitPage(w);
    if DirIndex(v) == DirIndex(w) && TableIndex(v) == TableIndex(w) {
      NatIsInjective(v >> 22, w >> 22);
      NatIsInjective((v >> 12) & 0x3FF, (w >> 12) & 0x3FF);
    }
  }

  lemma NatIsInjective(a: bv32, b: bv32)
    requires a as nat == b as nat
    ensures a == b
  {
    assert (a as nat) as bv32 == a && (b as nat) as bv32 == b;
  }

  // ----- addresses of whole pages

  lemma ValueIsInjective(a: bv32, b: bv32)
    requires Value(a) == Value(b)
    ensures a == b
  {
    hide HighDigits, MiddleDigit, LowDigit;
    DigitsAreUnique(HighDigits(a), MiddleDigit(a), LowDigit(a), HighDigits(b), MiddleDigit(b), LowDigit(b));
    DigitsDetermine(a, b);
  }

  lemma DigitsDetermine(a: bv32, b: bv32)
    requires HighDigits(a) == HighDigits(b) && MiddleDigit(a) == MiddleDigit(b) && LowDigit(a) == LowDigit(b)
    ensures a == b
  {
    hide Low6, Join;
    SixBitsInjective(Low6(a), Low6(b));
    SixBitsInjective(Low6(a >> 6), Low6(b >> 6));
    NatIsInjective(a >> 12, b >> 12);
    PartsOf(a);
    PartsOf(b);
  }

  lemma DigitsAreUnique(h: nat, m: nat, l: nat, h': nat, m': nat, l': nat)
    requires m < 64 && l < 64 && m' < 64 && l' < 64
    requires 4096 * h + 64 * m + l == 4096 * h' + 64 * m' + l'
    ensures h == h' && m == m' && l == l'
  {
  }

  lemma SixBitsInjective(a: bv6, b: bv6)
    ensures a as nat == b as nat ==> a == b
  {
    assert (a as nat) as bv6 == a && (b as nat) as bv6 == b;
  }

  lemma PartsOf(n: bv32)
    ensures n == ((n >> 12) << 12) | Join(Low6(n >> 6), Low6(n))
  {
  }

  lemma FrameAddressOf(frame: nat)
    requires frame < 4096
    ensures FrameOf(FrameAddress(frame)) == frame
  {
    hide PageNumber, ShiftUp, PageOf, Value;
    PageNumberIsFrame(frame);
    PageNumberIsSmall(frame);
    ShiftBack(PageNumber(frame));
  }

  /** An address is on page `frame` exactly when its page number is `frame`. */
  lemma OnPage(v: bv32, frame: nat)
    requires frame < 4096
    ensures PageOf(v) == PageOf(FrameAddress(frame)) <==> FrameOf(v) == frame
  {
    hide PageOf, Value, FrameAddress;
    FrameAddressOf(frame);
    if FrameOf(v) == frame {
      ValueIsInjective(PageOf(v), PageOf(FrameAddress(frame)));
    }
  }

  /** A page table covers 1024 pages. */
  lemma DirIndexOfPage(frame: nat)
    requires frame < 4096
    ensures DirIndex(FrameAddress(frame)) == frame / 1024
  {
    var a, b := Digit(frame / 64), Digit(frame % 64);
    assert DirIndex(FrameAddress(frame)) == (ShiftUp(Join(a, b)) >> 22) as nat;
    hide ShiftUp, Join, Digit;
    TopBits(a, b);
    HighDigit(frame / 64);
  }

  lemma TopBits(a: bv6, b: bv6)
    ensures ShiftUp(Join(a, b)) >> 22 == Widen(a >> 4)
  {
  }

  function Widen(a: bv6): bv32 {
    a as bv32
  }

  lemma HighDigit(d: nat)
    requires d < 64
    ensures Widen(Digit(d) >> 4) as nat == d / 16
  {
    WidenKeepsValue(Digit(d) >> 4);
    DigitShift(d);
  }

  lemma WidenKeepsValue(a: bv6)
    ensures Widen(a) as nat == a as nat
  {
  }

  lemma DigitShift(d: nat)
    requires d < 64
    ensures (Digit(d) >> 4) as nat == d / 16
  {
  }

  // ----- the page of an address

  function HighSix(b: bv8): bv8 {
    b >> 2
  }

  function LowTwo(b: bv8): bv8 {
    b & 3
  }

  function HighFour(b: bv8): bv8 {
    b >> 4
  }

  function ToByte(a: bv6): bv8 {
    a as bv8
  }

  function SixBits(a: bv8, b: bv8): bv8 {
    (LowTwo(a) << 4) | HighFour(b)
  }

  lemma SizeParts(a: bv8, b: bv8, c: bv6)
    ensures Size(a) == 4 * Size(HighSix(a)) + Size(LowTwo(a))
    ensures Size(b) / 16 == Size(HighFour(b))
    ensures Size(SixBits(a, b)) == 16 * Size(LowTwo(a)) + Size(HighFour(b))
    ensures c as nat == Size(ToByte(c))
  {
  }

  lemma PageParts(w: bv32)
    ensures HighDigits(PageOf(w)) == Size(Byte3(w))
    ensures ToByte(Low6(PageOf(w) >> 6)) == HighSix(Byte2(w))
    ensures ToByte(Low6(PageOf(w))) == SixBits(Byte2(w), Byte1(w))
  {
  }

  /** An address points into the page that its number, divided by the size of a page, names. */
  lemma FrameIsPageNumber(w: bv32)
    ensures FrameOf(w) == Magnitude(w) / 4096
  {
    hide Byte0, Byte1, Byte2, Byte3, HighSix, LowTwo, HighFour, ToByte, SixBits, Size, PageOf, Low6, HighDigits;
    PageParts(w);
    SizeParts(Byte2(w), Byte1(w), Low6(PageOf(w) >> 6));
    SizeParts(Byte2(w), Byte1(w), Low6(PageOf(w)));
  }
}
