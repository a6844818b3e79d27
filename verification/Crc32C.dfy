/** CRC-32C (the Castagnoli checksum of RFC 3720, section 12.1), table-driven and bit by bit. */
module Checksums {

  type Octet = bv8

  type Word = bv32

  const POLY: Word := 0x82F63B78
  const ONES: Word := 0xFFFFFFFF

  // ---- Words ----------------------------------------------------------------------------------

  function Xor(a: Word, b: Word): Word { a ^ b }

  function Low8(x: Word): Word { x & 0xFF }

  function Down8(x: Word): Word { x >> 8 }

  function Up8(x: Word): Word { x << 8 }

  /** x has no bits beyond its n low bytes. */
  predicate Fits(x: Word, n: nat) {
    if n == 0 then x == 0 else if n == 1 then x <= 0xFF else if n == 2 then x <= 0xFFFF
    else if n == 3 then x <= 0xFFFFFF else true
  }

  lemma XorAssociates(a: Word, b: Word, c: Word)
    ensures Xor(Xor(a, b), c) == Xor(a, Xor(b, c))
  {
  }

  lemma XorCancels(a: Word, b: Word)
    ensures Xor(Xor(a, b), b) == a && Xor(a, Xor(a, b)) == b
  {
  }

  lemma XorZero(a: Word, z: Word)
    requires Fits(z, 0)
    ensures Xor(a, z) == a
  {
  }

  lemma XorInjective(a: Word, b: Word, c: Word)
    ensures Xor(a, c) == Xor(b, c) ==> a == b
    ensures Xor(c, a) == Xor(c, b) ==> a == b
  {
    XorCancels(a, c);
    XorCancels(b, c);
    XorCancels(c, a);
    XorCancels(c, b);
  }

  // ---- One bit at a time ----------------------------------------------------------------------

  /** Divides out one bit of the reflected register. */
  function Shift(c: Word): Word {
    if c & 1 == 1 then POLY ^ (c >> 1) else c >> 1
  }

  function Shifts(c: Word, k: nat): Word
    decreases k
  {
    if k == 0 then c else Shifts(Shift(c), k - 1)
  }

  lemma {:induction false} ShiftsAdd(c: Word, j: nat, k: nat)
    ensures Shifts(Shifts(c, j), k) == Shifts(c, j + k)
    decreases j
  {
    hide Shift;
    if j > 0 {
      ShiftsAdd(Shift(c), j - 1, k);
    }
  }

  /** The register loses nothing: the polynomial's top bit tells whether it was divided. */
  lemma ShiftIsInjective(x: Word, y: Word)
    ensures Shift(x) == Shift(y) ==> x == y
  {
  }

  lemma {:induction false} ShiftsAreInjective(x: Word, y: Word, k: nat)
    ensures Shifts(x, k) == Shifts(y, k) ==> x == y
    decreases k
  {
    hide Shift;
    if k > 0 {
      ShiftsAreInjective(Shift(x), Shift(y), k - 1);
      ShiftIsInjective(x, y);
    }
  }

  predicate Even(y: Word) { y & 1 == 0 }

  function Half(y: Word): Word { y >> 1 }

  /** An even addend only moves along. */
  lemma ShiftOfSum(x: Word, y: Word)
    requires Even(y)
    ensures Shift(Xor(x, y)) == Xor(Shift(x), Half(y))
  {
    ShiftIs(x);
    ShiftIs(Xor(x, y));
    hide *;
    HalfOfSum(x, y);
    ParityOfSum(x, y);
    XorAssociates(POLY, Half(x), Half(y));
  }

  lemma ShiftIs(c: Word)
    ensures Shift(c) == if Even(c) then Half(c) else Xor(POLY, Half(c))
  {
  }

  lemma HalfOfSum(x: Word, y: Word)
    ensures Half(Xor(x, y)) == Xor(Half(x), Half(y))
  {
  }

  lemma ParityOfSum(x: Word, y: Word)
    requires Even(y)
    ensures Even(Xor(x, y)) <==> Even(x)
  {
  }

  // ---- The message, least significant bit first -----------------------------------------------

  function Bits(b: Octet): Word { b as Word }

  lemma BitsFit(b: Octet)
    ensures Fits(Bits(b), 1)
  {
  }

  lemma BitsAreInjective(x: Octet, y: Octet)
    ensures Bits(x) == Bits(y) ==> x == y
  {
  }

  function LowBit(b: Word): Word { b & 1 }

  /** Feeds the k low bits of b into the register, one by one. */
  ghost function FeedBits(c: Word, b: Word, k: nat): Word
    decreases k
  {
    if k == 0 then c else FeedBits(Shift(Xor(c, LowBit(b))), Half(b), k - 1)
  }

  ghost function FeedSerial(c: Word, data: seq<Octet>): Word
    decreases |data|
  {
    if data == [] then c else FeedSerial(FeedBits(c, Bits(data[0]), 8), data[1..])
  }

  /** The checksum by its definition: ones in, every message bit divided in, complemented out. */
  ghost function Reference(data: seq<Octet>): Word {
    Xor(FeedSerial(ONES, data), ONES)
  }

  /** b has no bits from position k up. */
  ghost predicate Below(b: Word, k: nat)
    decreases k
  {
    if k == 0 then Fits(b, 0) else Below(Half(b), k - 1)
  }

  lemma ByteIsBelow(b: Word)
    requires Fits(b, 1)
    ensures Below(b, 8)
  {
    var b2 := Half(Half(b));
    var b4 := Half(Half(b2));
    var b6 := Half(Half(b4));
    assert Below(b6, 2);
    hide Half;
    assert Below(b4, 4);
    assert Below(b2, 6);
  }

  lemma SplitLowBit(c: Word, b: Word)
    ensures Shift(Xor(c, b)) == Xor(Shift(Xor(c, LowBit(b))), Half(b))
  {
    hide *;
    var even := EvenPart(b);
    XorAssociates(c, LowBit(b), even);
    ShiftOfSum(Xor(c, LowBit(b)), even);
  }

  lemma EvenPart(b: Word) returns (even: Word)
    ensures Even(even) && Half(even) == Half(b) && Xor(LowBit(b), even) == b
  {
    even := b & 0xFFFFFFFE;
  }

  /** Adding a byte first and then dividing out its bits is the same as bit by bit. */
  lemma {:induction false} FeedBitsIsShifts(c: Word, b: Word, k: nat)
    requires Below(b, k)
    ensures FeedBits(c, b, k) == Shifts(Xor(c, b), k)
    decreases k
  {
    hide Shift, Xor, Half, LowBit, Fits;
    if k == 0 {
      XorZero(c, b);
    } else {
      SplitLowBit(c, b);
      FeedBitsIsShifts(Shift(Xor(c, LowBit(b))), Half(b), k - 1);
    }
  }

  // ---- A byte at a time -----------------------------------------------------------------------

  function Step(c: Word, b: Octet): Word { Shifts(Xor(c, Bits(b)), 8) }

  function Feed(c: Word, data: seq<Octet>): Word {
    if data == [] then c else Step(Feed(c, data[..|data| - 1]), data[|data| - 1])
  }

  lemma {:induction false} FeedSplits(c: Word, a: seq<Octet>, b: seq<Octet>)
    ensures Feed(c, a + b) == Feed(Feed(c, a), b)
    decreases |b|
  {
    hide Step;
    if b == [] {
      assert a + b == a;
    } else {
      assert (a + b)[..|a + b| - 1] == a + b[..|b| - 1];
      FeedSplits(c, a, b[..|b| - 1]);
    }
  }

  lemma FeedHead(c: Word, data: seq<Octet>)
    requires data != []
    ensures Feed(c, data) == Feed(Step(c, data[0]), data[1..])
  {
    hide Step;
    assert data == [data[0]] + data[1..];
    FeedSplits(c, [data[0]], data[1..]);
    assert [data[0]][..0] == [];
    assert Feed(c, [data[0]]) == Step(Feed(c, []), data[0]);
  }

  lemma FeedNothing(c: Word)
    ensures Feed(c, []) == c == FeedSerial(c, [])
  {
  }

  lemma SerialHead(c: Word, data: seq<Octet>)
    requires data != []
    ensures FeedSerial(c, data) == FeedSerial(FeedBits(c, Bits(data[0]), 8), data[1..])
  {
    hide FeedBits, Bits;
  }

  lemma StepIsSerial(c: Word, b: Octet)
    ensures Step(c, b) == FeedBits(c, Bits(b), 8)
  {
    hide Shifts, FeedBits, Bits, Fits, Xor;
    BitsFit(b);
    ByteIsBelow(Bits(b));
    FeedBitsIsShifts(c, Bits(b), 8);
  }

  lemma {:induction false} FeedIsSerial(c: Word, data: seq<Octet>)
    ensures Feed(c, data) == FeedSerial(c, data)
    decreases |data|
  {
    hide *;
    if data == [] {
      FeedNothing(c);
    } else {
      FeedHead(c, data);
      SerialHead(c, data);
      StepIsSerial(c, data[0]);
      FeedIsSerial(Step(c, data[0]), data[1..]);
    }
  }

  // ---- The table ------------------------------------------------------------------------------

  function FromIndex(i: nat): Word
    requires i < 256
  {
    i as Word
  }

  ghost predicate IsTable(t: seq<Word>) {
    |t| == 256 && forall i: nat :: i < 256 ==> t[i] == Shifts(FromIndex(i), 8)
  }

  method MakeTable() returns (t: seq<Word>)
    ensures IsTable(t)
  {
    hide Shift, FromIndex;
    t := [];
    for i := 0 to 256
      invariant |t| == i && forall j: nat :: j < i ==> t[j] == Shifts(FromIndex(j), 8)
    {
      var c := FromIndex(i);
      for k := 0 to 8
        invariant Shifts(c, 8 - k) == Shifts(FromIndex(i), 8)
      {
        c := Shift(c);
      }
      t := t + [c];
    }
  }

  /** y stays even under k halvings. */
  ghost predicate Evens(y: Word, k: nat)
    decreases k
  {
    k == 0 || (Even(y) && Evens(Half(y), k - 1))
  }

  ghost function Halves(y: Word, k: nat): Word
    decreases k
  {
    if k == 0 then y else Halves(Half(y), k - 1)
  }

  lemma {:induction false} MovesDown(x: Word, y: Word, k: nat)
    requires Evens(y, k)
    ensures Shifts(Xor(x, y), k) == Xor(Shifts(x, k), Halves(y, k))
    decreases k
  {
    hide Shift, Xor, Half, Even;
    if k > 0 {
      ShiftOfSum(x, y);
      MovesDown(Shift(x), Half(y), k - 1);
    }
  }

  // Halving undoes one place of an upward move.

  lemma HalfOf8(p: Word)
    requires Fits(p, 3)
    ensures Even(p << 8) && Half(p << 8) == p << 7
  {
  }

  lemma HalfOf7(p: Word)
    requires Fits(p, 3)
    ensures Even(p << 7) && Half(p << 7) == p << 6
  {
  }

  lemma HalfOf6(p: Word)
    requires Fits(p, 3)
    ensures Even(p << 6) && Half(p << 6) == p << 5
  {
  }

  lemma HalfOf5(p: Word)
    requires Fits(p, 3)
    ensures Even(p << 5) && Half(p << 5) == p << 4
  {
  }

  lemma HalfOf4(p: Word)
    requires Fits(p, 3)
    ensures Even(p << 4) && Half(p << 4) == p << 3
  {
  }

  lemma HalfOf3(p: Word)
    requires Fits(p, 3)
    ensures Even(p << 3) && Half(p << 3) == p << 2
  {
  }

  lemma HalfOf2(p: Word)
    requires Fits(p, 3)
    ensures Even(p << 2) && Half(p << 2) == p << 1
  {
  }

  lemma HalfOf1(p: Word)
    requires Fits(p, 3)
    ensures Even(p << 1) && Half(p << 1) == p
  {
  }

  lemma OneHalf(y: Word, z: Word, p: Word, k: nat)
    requires Even(y) && Half(y) == z && Evens(z, k) && Halves(z, k) == p
    ensures Evens(y, k + 1) && Halves(y, k + 1) == p
  {
    hide Even, Half;
  }

  lemma UpComesDown(p: Word)
    requires Fits(p, 3)
    ensures Evens(Up8(p), 8) && Halves(Up8(p), 8) == p
  {
    hide Fits, Even, Half, Evens, Halves;
    NoHalves(p);
    HalfOf1(p);
    OneHalf(p << 1, p, p, 0);
    HalfOf2(p);
    OneHalf(p << 2, p << 1, p, 1);
    HalfOf3(p);
    OneHalf(p << 3, p << 2, p, 2);
    HalfOf4(p);
    OneHalf(p << 4, p << 3, p, 3);
    HalfOf5(p);
    OneHalf(p << 5, p << 4, p, 4);
    HalfOf6(p);
    OneHalf(p << 6, p << 5, p, 5);
    HalfOf7(p);
    OneHalf(p << 7, p << 6, p, 6);
    HalfOf8(p);
    OneHalf(p << 8, p << 7, p, 7);
  }

  lemma NoHalves(y: Word)
    ensures Evens(y, 0) && Halves(y, 0) == y
  {
  }

  /** Whatever sits above the low byte comes down unchanged after eight divisions. */
  lemma HighBytesMoveDown(x: Word, p: Word)
    requires Fits(p, 3)
    ensures Shifts(Xor(x, Up8(p)), 8) == Xor(Shifts(x, 8), p)
  {
    hide *;
    UpComesDown(p);
    MovesDown(x, Up8(p), 8);
  }

  lemma SplitLowByte(x: Word)
    ensures Xor(Low8(x), Up8(Down8(x))) == x && Fits(Down8(x), 3) && Fits(Low8(x), 1)
  {
  }

  /** Eight divisions depend on the low byte through the table; the rest only moves down. */
  lemma LowByteDecides(x: Word)
    ensures Shifts(x, 8) == Xor(Shifts(Low8(x), 8), Down8(x))
  {
    hide *;
    SplitLowByte(x);
    HighBytesMoveDown(Low8(x), Down8(x));
  }

  function ToIndex(x: Word): (i: nat) {
    x as nat
  }

  lemma IndexBack(x: Word)
    requires Fits(x, 1)
    ensures ToIndex(x) < 256 && FromIndex(ToIndex(x)) == x
  {
  }

  lemma HighByteKept(c: Word, b: Word)
    requires Fits(b, 1)
    ensures Down8(Xor(c, b)) == Down8(c)
  {
  }

  lemma TableStep(t: seq<Word>, c: Word, b: Octet)
    requires IsTable(t)
    ensures var at := ToIndex(Low8(Xor(c, Bits(b)))); at < |t| && Xor(t[at], Down8(c)) == Step(c, b)
  {
    hide Shifts, Bits, Xor, Low8, Down8, ToIndex, FromIndex, Fits;
    var x := Xor(c, Bits(b));
    LowByteDecides(x);
    BitsFit(b);
    HighByteKept(c, Bits(b));
    SplitLowByte(x);
    IndexBack(Low8(x));
  }

  /** Continues a checksum. */
  method Update(t: seq<Word>, crc: Word, data: seq<Octet>) returns (r: Word)
    requires IsTable(t)
    ensures r == Xor(Feed(Xor(crc, ONES), data), ONES)
  {
    hide IsTable, Step, Xor, Low8, Down8, ToIndex, Bits;
    var c := Xor(crc, ONES);
    for i := 0 to |data|
      invariant c == Feed(Xor(crc, ONES), data[..i])
    {
      assert data[..i + 1][..i] == data[..i];
      TableStep(t, c, data[i]);
      c := Xor(t[ToIndex(Low8(Xor(c, Bits(data[i]))))], Down8(c));
    }
    assert data[..|data|] == data;
    r := Xor(c, ONES);
  }

  method Compute(t: seq<Word>, data: seq<Octet>) returns (r: Word)
    requires IsTable(t)
    ensures r == Checksum(data)
  {
    hide Feed, IsTable;
    r := Update(t, 0, data);
  }

  function Checksum(data: seq<Octet>): Word { Xor(Feed(Xor(0, ONES), data), ONES) }

  /** The table-driven checksum is the bit-serial one. */
  lemma ChecksumIsReference(data: seq<Octet>)
    ensures Checksum(data) == Reference(data)
  {
    hide Feed, FeedSerial;
    FeedIsSerial(ONES, data);
  }

  /** The registers that the digits one to nine leave behind, one after the other. */
  lemma CheckSteps()
    ensures Step(0xFFFFFFFF, 0x31) == 0x6F0A661C
    ensures Step(0x6F0A661C, 0x32) == 0x8CAA3B9F
    ensures Step(0x8CAA3B9F, 0x33) == 0xEF84D04D
    ensures Step(0xEF84D04D, 0x34) == 0x09C50B11
    ensures Step(0x09C50B11, 0x35) == 0xE72EDCCA
    ensures Step(0xE72EDCCA, 0x36) == 0xBECA8E79
    ensures Step(0xBECA8E79, 0x37) == 0xEDBD6815
    ensures Step(0xEDBD6815, 0x38) == 0x9F787F65
    ensures Step(0x9F787F65, 0x39) == 0x1CF96D7C
  {
  }

  const DIGITS: seq<Octet> := [0x31, 0x32, 0x33, 0x34, 0x35, 0x36, 0x37, 0x38, 0x39]

  lemma {:induction false} FeedGrows(c: Word, data: seq<Octet>, k: nat)
    requires k < |data|
    ensures Feed(c, data[..k + 1]) == Step(Feed(c, data[..k]), data[k])
  {
    hide Step;
    assert data[..k + 1][..k] == data[..k];
  }

  /** The standard check value: the checksum of the text "123456789". */
  lemma CheckValue()
    ensures Checksum(DIGITS) == 0xE3069283
  {
    CheckSteps();
    hide Step, Feed;
    FeedGrows(ONES, DIGITS, 0);
    FeedGrows(ONES, DIGITS, 1);
    FeedGrows(ONES, DIGITS, 2);
    FeedGrows(ONES, DIGITS, 3);
    FeedGrows(ONES, DIGITS, 4);
    FeedGrows(ONES, DIGITS, 5);
    FeedGrows(ONES, DIGITS, 6);
    FeedGrows(ONES, DIGITS, 7);
    FeedGrows(ONES, DIGITS, 8);
    FeedNone(ONES);
    assert DIGITS[..0] == [] && DIGITS[..9] == DIGITS;
  }

  lemma FeedNone(c: Word)
    ensures Feed(c, []) == c && Xor(0, ONES) == ONES
  {
  }

  /** Continuing from the first part's checksum gives the checksum of the whole. */
  lemma ChecksumContinues(a: seq<Octet>, b: seq<Octet>)
    ensures Xor(Feed(Xor(Checksum(a), ONES), b), ONES) == Checksum(a + b)
  {
    hide Feed, Xor;
    FeedSplits(Xor(0, ONES), a, b);
    XorCancels(Feed(Xor(0, ONES), a), ONES);
  }

  // ---- What the checksum always catches ---------------------------------------------------------

  /** Up to four bytes as one little-endian word. */
  ghost function Pack(u: seq<Octet>): Word {
    if u == [] then 0 else Xor(Bits(u[0]), Up8(Pack(u[1..])))
  }

  lemma PackGrows(low: Word, rest: Word, n: nat)
    requires Fits(low, 1) && Fits(rest, n)
    ensures Fits(Xor(low, Up8(rest)), n + 1)
  {
  }

  lemma {:induction false} PackFits(u: seq<Octet>)
    ensures Fits(Pack(u), |u|)
  {
    hide Bits, Xor, Up8;
    if u != [] {
      PackFits(u[1..]);
      BitsFit(u[0]);
      PackGrows(Bits(u[0]), Pack(u[1..]), |u| - 1);
    }
  }

  lemma PackHead(u: seq<Octet>)
    ensures u == [] ==> Fits(Pack(u), 0)
    ensures u != [] ==> Pack(u) == Xor(Bits(u[0]), Up8(Pack(u[1..])))
  {
    hide Bits, Xor, Up8;
  }

  lemma FitsMore(x: Word, n: nat)
    requires Fits(x, n) && n <= 3
    ensures Fits(x, 3)
  {
  }

  lemma NoShifts(c: Word)
    ensures Shifts(c, 0) == c
  {
  }

  /** Feeding up to four bytes is adding their word and dividing out all its bits. */
  lemma {:induction false} FeedIsPacked(c: Word, u: seq<Octet>)
    requires |u| <= 4
    ensures Feed(c, u) == Shifts(Xor(c, Pack(u)), 8 * |u|)
    decreases |u|
  {
    hide *;
    PackHead(u);
    if u == [] {
      FeedNothing(c);
      NoShifts(Xor(c, Pack(u)));
      XorZero(c, Pack(u));
    } else {
      var low, rest := Bits(u[0]), Pack(u[1..]);
      FeedHead(c, u);
      FeedIsPacked(Step(c, u[0]), u[1..]);
      PackFits(u[1..]);
      FitsMore(rest, |u| - 1);
      HighBytesMoveDown(Xor(c, low), rest);
      ShiftsAdd(Xor(Xor(c, low), Up8(rest)), 8, 8 * (|u| - 1));
      XorAssociates(c, low, Up8(rest));
      StepIs(c, u[0]);
    }
  }

  lemma StepIs(c: Word, b: Octet)
    ensures Step(c, b) == Shifts(Xor(c, Bits(b)), 8)
  {
    hide Shifts, Xor, Bits;
  }

  lemma SameLowByte(a: Word, b: Word, p: Word, q: Word)
    requires Fits(a, 1) && Fits(b, 1) && Fits(p, 3) && Fits(q, 3)
    ensures Xor(a, Up8(p)) == Xor(b, Up8(q)) ==> a == b && p == q
  {
  }

  lemma {:induction false} PackIsInjective(u: seq<Octet>, v: seq<Octet>)
    requires |u| == |v| <= 4
    ensures Pack(u) == Pack(v) ==> u == v
    decreases |u|
  {
    hide *;
    if u != [] {
      PackHead(u);
      PackHead(v);
      BitsFit(u[0]);
      BitsFit(v[0]);
      PackFits(u[1..]);
      PackFits(v[1..]);
      FitsMore(Pack(u[1..]), |u| - 1);
      FitsMore(Pack(v[1..]), |v| - 1);
      SameLowByte(Bits(u[0]), Bits(v[0]), Pack(u[1..]), Pack(v[1..]));
      PackIsInjective(u[1..], v[1..]);
      BitsAreInjective(u[0], v[0]);
      assert u == [u[0]] + u[1..] && v == [v[0]] + v[1..];
    }
  }

  lemma StepIsInjective(x: Word, y: Word, b: Octet)
    ensures Step(x, b) == Step(y, b) ==> x == y
  {
    hide Shifts, Xor, Bits;
    ShiftsAreInjective(Xor(x, Bits(b)), Xor(y, Bits(b)), 8);
    XorInjective(x, y, Bits(b));
  }

  /** Different registers stay different under the same bytes. */
  lemma {:induction false} FeedKeepsApart(x: Word, y: Word, data: seq<Octet>)
    ensures Feed(x, data) == Feed(y, data) ==> x == y
    decreases |data|
  {
    hide Step;
    if data != [] {
      var m := |data| - 1;
      StepIsInjective(Feed(x, data[..m]), Feed(y, data[..m]), data[m]);
      FeedKeepsApart(x, y, data[..m]);
    }
  }

  lemma FeedThree(c: Word, p: seq<Octet>, u: seq<Octet>, s: seq<Octet>)
    ensures Feed(c, p + u + s) == Feed(Feed(Feed(c, p), u), s)
  {
    hide *;
    FeedSplits(c, p + u, s);
    FeedSplits(c, p, u);
  }

  lemma BurstIsCaught(p: seq<Octet>, u: seq<Octet>, v: seq<Octet>, s: seq<Octet>)
    requires |u| == |v| <= 4
    ensures Checksum(p + u + s) == Checksum(p + v + s) ==> u == v
  {
    hide Feed, Shifts, Pack, Xor;
    var c := Feed(Xor(0, ONES), p);
    FeedThree(Xor(0, ONES), p, u, s);
    FeedThree(Xor(0, ONES), p, v, s);
    XorInjective(Feed(Feed(c, u), s), Feed(Feed(c, v), s), ONES);
    FeedKeepsApart(Feed(c, u), Feed(c, v), s);
    FeedIsPacked(c, u);
    FeedIsPacked(c, v);
    ShiftsAreInjective(Xor(c, Pack(u)), Xor(c, Pack(v)), 8 * |u|);
    XorInjective(Pack(u), Pack(v), c);
    PackIsInjective(u, v);
  }

  /** Two messages of one length that differ only within four consecutive bytes never share a checksum. */
  lemma FourByteErrorsAreCaught(a: seq<Octet>, b: seq<Octet>, at: nat)
    requires |a| == |b| && a != b
    requires forall k :: 0 <= k < |a| && a[k] != b[k] ==> at <= k < at + 4
    ensures Checksum(a) != Checksum(b)
  {
    hide Checksum;
    var i := if at < |a| then at else |a|;
    var j := if at + 4 < |a| then at + 4 else |a|;
    var p, s := a[..i], a[j..];
    assert b[..i] == p && b[j..] == s;
    assert a == p + a[i..j] + s && b == p + b[i..j] + s;
    BurstIsCaught(p, a[i..j], b[i..j], s);
  }
}
