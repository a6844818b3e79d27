/** Thirty-two-bit rule masks, read one bit at a time. */
module BitMasks {

  type Mask = bv32

  predicate Bit(m: Mask, i: bv6)
    requires i < 32
  {
    (m >> i) & 1 == 1
  }

  /** The mask of the bits below i. */
  function Below(i: bv6): Mask
    requires i < 32
  {
    (1 << i) - 1
  }

  lemma PositionFits(i: int)
    requires 0 <= i < 32
    ensures i as bv6 < 32 && (i as bv6) as int == i
  {
  }

  predicate Has(m: Mask, i: nat) {
    i < 32 && (PositionFits(i); Bit(m, i as bv6))
  }

  function One(i: nat): Mask
    requires i < 32
  {
    PositionFits(i);
    1 << (i as bv6)
  }

  function Or(a: Mask, b: Mask): Mask { a | b }

  function And(a: Mask, b: Mask): Mask { a & b }

  /** The mask without its lowest bit. */
  function Clear(m: Mask): Mask { m & (m - 1) }

  lemma HasOr(a: Mask, b: Mask, i: nat)
    ensures Has(Or(a, b), i) <==> Has(a, i) || Has(b, i)
  {
    if i < 32 {
      PositionFits(i);
      OrBit(a, b, i as bv6);
    }
  }

  lemma OrBit(a: Mask, b: Mask, i: bv6)
    requires i < 32
    ensures Bit(a | b, i) <==> Bit(a, i) || Bit(b, i)
  {
  }

  lemma HasAnd(a: Mask, b: Mask, i: nat)
    ensures Has(And(a, b), i) <==> Has(a, i) && Has(b, i)
  {
    if i < 32 {
      PositionFits(i);
      AndBit(a, b, i as bv6);
    }
  }

  lemma AndBit(a: Mask, b: Mask, i: bv6)
    requires i < 32
    ensures Bit(a & b, i) <==> Bit(a, i) && Bit(b, i)
  {
  }

  lemma HasOne(i: nat, j: nat)
    requires i < 32
    ensures Has(One(i), j) <==> i == j
  {
    PositionFits(i);
    if j < 32 {
      PositionFits(j);
      OneBit(i as bv6, j as bv6);
    }
  }

  lemma OneBit(i: bv6, j: bv6)
    requires i < 32 && j < 32
    ensures Bit(1 << i, j) <==> i == j
  {
  }

  lemma SetBit(m: Mask, i: nat)
    requires i < 32
    ensures forall j: nat :: Has(Or(m, One(i)), j) <==> Has(m, j) || j == i
  {
    hide *;
    forall j: nat
      ensures Has(Or(m, One(i)), j) <==> Has(m, j) || j == i
    {
      HasOr(m, One(i), j);
      HasOne(i, j);
    }
  }

  lemma NothingInZero(i: nat)
    ensures !Has(0, i)
  {
    if i < 32 {
      PositionFits(i);
      ZeroBit(i as bv6);
    }
  }

  lemma ZeroBit(i: bv6)
    requires i < 32
    ensures !Bit(0, i)
  {
  }

  ghost predicate NoneBelow(m: Mask, i: bv6) {
    i < 32 && m & Below(i) == 0
  }

  lemma BelowStep(m: Mask, i: bv6)
    requires m != 0 && NoneBelow(m, i) && !Bit(m, i)
    ensures i < 31 && NoneBelow(m, i + 1)
  {
  }

  lemma BelowNone(m: Mask)
    ensures NoneBelow(m, 0)
  {
  }

  /** The lowest set position from i up. */
  function LowestFrom(m: Mask, i: bv6): (at: bv6)
    requires m != 0 && i < 32 && NoneBelow(m, i)
    ensures at < 32 && Bit(m, at) && NoneBelow(m, at)
    decreases 32 - i
  {
    if Bit(m, i) then i
    else
      BelowStep(m, i);
      LowestFrom(m, i + 1)
  }

  /** The position of the lowest bit. */
  method CountTrailingZeros(m: Mask) returns (c: nat)
    requires m != 0
    ensures c < 32 && LowestAt(m, c)
  {
    hide Bit, Below;
    BelowNone(m);
    var at := LowestFrom(m, 0);
    PositionBack(at);
    c := at as int;
  }

  /** c is the mask's lowest bit. */
  ghost predicate LowestAt(m: Mask, c: nat)
    requires c < 32
  {
    PositionFits(c);
    Bit(m, c as bv6) && NoneBelow(m, c as bv6)
  }

  lemma PositionBack(i: bv6)
    requires i < 32
    ensures 0 <= i as int < 32 && (i as int) as bv6 == i
  {
  }

  /** m & (m - 1) drops exactly the lowest bit. */
  lemma DropsLowest(m: Mask, c: nat, j: nat)
    requires c < 32 && LowestAt(m, c)
    ensures Has(m, c) && (Has(Clear(m), j) <==> Has(m, j) && j != c)
  {
    PositionFits(c);
    if j < 32 {
      PositionFits(j);
      ClearBit(m, c as bv6, j as bv6);
    }
  }

  lemma ClearBit(m: Mask, i: bv6, j: bv6)
    requires i < 32 && j < 32 && Bit(m, i) && NoneBelow(m, i)
    ensures Bit(m & (m - 1), j) <==> Bit(m, j) && i != j
  {
  }

  lemma Shrinks(m: Mask)
    requires m != 0
    ensures Clear(m) < m
  {
  }

  // ---- Sums over the bits of a mask -------------------------------------------------------------

  /** The values at the mask's bits, each counted once. */
  ghost function SumOver(m: Mask, values: seq<real>): real {
    if values == [] then 0.0
    else SumOver(m, values[..|values| - 1]) + if Has(m, |values| - 1) then values[|values| - 1] else 0.0
  }

  lemma {:induction false} SumWithout(m: Mask, rest: Mask, values: seq<real>, c: nat)
    requires Has(m, c) && forall j: nat :: Has(rest, j) <==> Has(m, j) && j != c
    ensures SumOver(m, values) == SumOver(rest, values) + if c < |values| then values[c] else 0.0
  {
    hide Has;
    if values != [] {
      SumWithout(m, rest, values[..|values| - 1], c);
    }
  }

  lemma {:induction false} SumOfNothing(values: seq<real>)
    ensures SumOver(0, values) == 0.0
  {
    hide Has;
    if values != [] {
      SumOfNothing(values[..|values| - 1]);
      NothingInZero(|values| - 1);
    }
  }

  /** Adds up the values at a mask's bits, dropping the lowest bit each time round. */
  method SumBits(m: Mask, values: seq<real>) returns (sum: real)
    requires forall i: nat :: Has(m, i) ==> i < |values|
    ensures sum == SumOver(m, values)
  {
    hide Has, Bit, Below, Clear, SumOver;
    sum := 0.0;
    var bits := m;
    while bits != 0
      invariant sum + SumOver(bits, values) == SumOver(m, values)
      invariant forall i: nat :: Has(bits, i) ==> i < |values|
      decreases bits
    {
      var c := CountTrailingZeros(bits);
      forall j: nat
        ensures Has(bits, c) && (Has(Clear(bits), j) <==> Has(bits, j) && j != c)
      {
        DropsLowest(bits, c, j);
      }
      SumWithout(bits, Clear(bits), values, c);
      Shrinks(bits);
      sum := sum + values[c];
      bits := Clear(bits);
    }
    SumOfNothing(values);
  }

  /** A mask other than zero has a bit. */
  lemma HasSome(m: Mask) returns (c: nat)
    requires m != 0
    ensures Has(m, c)
  {
    BelowNone(m);
    var at := LowestFrom(m, 0);
    PositionBack(at);
    c := at as int;
  }
}
