/** The register layout of the filter: the control/status register (CSR,
    address 0x0) and the coefficient register (address 0x4), with the
    expressions the campaign script applies to them, each written as the
    script writes it (`csr | (1 << b)`, `csr & ~(1 << b)`, ...). */
module Registers {
  import opened Bits

  /** Filter enable. */
  const FEN: nat := 0
  /** Halt the filter so that coefficients can be written. */
  const HALT: nat := 5
  /** Clear the input buffer. */
  const IBCLR: nat := 17
  /** Clear the filter taps. */
  const TCLR: nat := 18

  /** The CSR bit that enables coefficient `coefIdx`: positions start at 1,
      because bit 0 is FEN. */
  function EnableBitOf(coefIdx: int): int
  {
    coefIdx + 1
  }

  /** `csr | (1 << b)` */
  function SetBit(csr: nat, b: nat): nat
  {
    Or(csr, Shl(1, b))
  }

  /** `csr & ~(1 << b)` */
  function ClearBit(csr: nat, b: nat): nat
  {
    AndNot(csr, Shl(1, b))
  }

  /** Python's `value & 0xFF`, also for a negative `value` (two's complement),
      which is the Euclidean remainder. */
  function Mask8(value: int): nat
  {
    value % 256
  }

  /** The coefficient write: `(reg & ~(0xFF << shift)) | ((value & 0xFF) << shift)`
      with `shift == lane * 8`. */
  function PackLane(reg: nat, lane: nat, value: int): nat
  {
    Or(AndNot(reg, Shl(255, 8 * lane)), Shl(Mask8(value), 8 * lane))
  }

  /** The 8-bit lane `lane` of a register value: `(reg >> (lane * 8)) & 0xFF`. */
  function Lane(reg: nat, lane: nat): nat
  {
    Low(Shr(reg, 8 * lane), 8)
  }

  /** The halt-and-clear step: set HALT, IBCLR and TCLR. */
  function HaltAndClearCsr(csr: nat): nat
  {
    SetBit(SetBit(SetBit(csr, HALT), IBCLR), TCLR)
  }

  /** The release step: clear HALT, then `csr | 1` sets FEN. */
  function ReleaseCsr(csr: nat): nat
  {
    Or(ClearBit(csr, HALT), 1)
  }

  lemma SetBitBits(csr: nat, b: nat, i: nat)
    ensures Bit(SetBit(csr, b), i) <==> i == b || Bit(csr, i)
  {
    BitOr(csr, Shl(1, b), i);
    BitShl(1, b, i);
    if b <= i { BitOne(i - b); }
  }

  lemma ClearBitBits(csr: nat, b: nat, i: nat)
    ensures Bit(ClearBit(csr, b), i) <==> i != b && Bit(csr, i)
  {
    BitAndNot(csr, Shl(1, b), i);
    BitShl(1, b, i);
    if b <= i { BitOne(i - b); }
  }

  /** Setting bit `b` turns that bit on and leaves every other bit as it was. */
  lemma SetBitOnly(csr: nat, b: nat)
    ensures Bit(SetBit(csr, b), b)
    ensures forall i: nat :: i != b ==> (Bit(SetBit(csr, b), i) <==> Bit(csr, i))
  {
    SetBitBits(csr, b, b);
    forall i: nat | i != b
      ensures Bit(SetBit(csr, b), i) <==> Bit(csr, i)
    {
      SetBitBits(csr, b, i);
    }
  }

  /** Clearing bit `b` turns that bit off and leaves every other bit as it was. */
  lemma ClearBitOnly(csr: nat, b: nat)
    ensures !Bit(ClearBit(csr, b), b)
    ensures forall i: nat :: i != b ==> (Bit(ClearBit(csr, b), i) <==> Bit(csr, i))
  {
    ClearBitBits(csr, b, b);
    forall i: nat | i != b
      ensures Bit(ClearBit(csr, b), i) <==> Bit(csr, i)
    {
      ClearBitBits(csr, b, i);
    }
  }

  /** Setting a bit that is already set changes nothing; so does clearing one that is clear. */
  lemma SetClearNoChange(csr: nat, b: nat)
    ensures Bit(csr, b) ==> SetBit(csr, b) == csr
    ensures !Bit(csr, b) ==> ClearBit(csr, b) == csr
  {
    forall i: nat
      ensures Bit(csr, b) ==> (Bit(SetBit(csr, b), i) <==> Bit(csr, i))
      ensures !Bit(csr, b) ==> (Bit(ClearBit(csr, b), i) <==> Bit(csr, i))
    {
      SetBitBits(csr, b, i);
      ClearBitBits(csr, b, i);
    }
    if Bit(csr, b) {
      BitsEqual(SetBit(csr, b), csr);
    } else {
      BitsEqual(ClearBit(csr, b), csr);
    }
  }

  lemma Mask8Bits(value: int, i: nat)
    ensures Mask8(value) < 256
    ensures i >= 8 ==> !Bit(Mask8(value), i)
  {
    assert Pow2(8) == 256;
    if i >= 8 { BitAbove(Mask8(value), 8, i); }
  }

  /** Bit `i` of a packed register: inside lane `lane` it is the masked value's
      bit, outside it is the old register's bit. */
  lemma PackLaneBits(reg: nat, lane: nat, value: int, i: nat)
    ensures Bit(PackLane(reg, lane, value), i) <==>
      if 8 * lane <= i < 8 * lane + 8 then Bit(Mask8(value), i - 8 * lane) else Bit(reg, i)
  {
    var s := 8 * lane;
    BitOr(AndNot(reg, Shl(255, s)), Shl(Mask8(value), s), i);
    BitAndNot(reg, Shl(255, s), i);
    BitShl(255, s, i);
    BitShl(Mask8(value), s, i);
    assert Pow2(8) - 1 == 255;
    if s <= i {
      BitOnes(8, i - s);
      Mask8Bits(value, i - s);
    }
  }

  lemma LaneBits(reg: nat, lane: nat, i: nat)
    ensures Bit(Lane(reg, lane), i) <==> i < 8 && Bit(reg, 8 * lane + i)
  {
    BitLow(Shr(reg, 8 * lane), 8, i);
    BitShr(reg, 8 * lane, i);
  }

  /** The coefficient write stores `value & 0xFF` in its lane, even when
      `value` does not fit in eight bits. */
  lemma PackLaneSetsLane(reg: nat, lane: nat, value: int)
    ensures Lane(PackLane(reg, lane, value), lane) == Mask8(value)
  {
    var r := PackLane(reg, lane, value);
    forall i: nat
      ensures Bit(Lane(r, lane), i) == Bit(Mask8(value), i)
    {
      LaneBits(r, lane, i);
      PackLaneBits(reg, lane, value, 8 * lane + i);
      Mask8Bits(value, i);
    }
    BitsEqual(Lane(r, lane), Mask8(value));
  }

  /** The coefficient write leaves every bit outside its lane, and so every
      other lane, as it was. */
  lemma PackLaneKeepsRest(reg: nat, lane: nat, value: int)
    ensures forall i: nat :: (i < 8 * lane || 8 * lane + 8 <= i) ==>
      (Bit(PackLane(reg, lane, value), i) <==> Bit(reg, i))
    ensures forall other: nat :: other != lane ==>
      Lane(PackLane(reg, lane, value), other) == Lane(reg, other)
  {
    var r := PackLane(reg, lane, value);
    forall i: nat | i < 8 * lane || 8 * lane + 8 <= i
      ensures Bit(r, i) <==> Bit(reg, i)
    {
      PackLaneBits(reg, lane, value, i);
    }
    forall other: nat | other != lane
      ensures Lane(r, other) == Lane(reg, other)
    {
      forall i: nat
        ensures Bit(Lane(r, other), i) == Bit(Lane(reg, other), i)
      {
        LaneBits(r, other, i);
        LaneBits(reg, other, i);
        PackLaneBits(reg, lane, value, 8 * other + i);
      }
      BitsEqual(Lane(r, other), Lane(reg, other));
    }
  }

  /** Writing the same value into the same lane twice is the same as writing it once. */
  lemma PackLaneIdempotent(reg: nat, lane: nat, value: int)
    ensures PackLane(PackLane(reg, lane, value), lane, value) == PackLane(reg, lane, value)
  {
    var r := PackLane(reg, lane, value);
    forall i: nat
      ensures Bit(PackLane(r, lane, value), i) == Bit(r, i)
    {
      PackLaneBits(r, lane, value, i);
      PackLaneBits(reg, lane, value, i);
    }
    BitsEqual(PackLane(r, lane, value), r);
  }

  /** The halt-and-clear step sets HALT, IBCLR and TCLR and no other bit. */
  lemma HaltAndClearBits(csr: nat, i: nat)
    ensures Bit(HaltAndClearCsr(csr), i) <==> i == HALT || i == IBCLR || i == TCLR || Bit(csr, i)
  {
    SetBitBits(csr, HALT, i);
    SetBitBits(SetBit(csr, HALT), IBCLR, i);
    SetBitBits(SetBit(SetBit(csr, HALT), IBCLR), TCLR, i);
  }

  /** Halting and clearing twice leaves the CSR as halting and clearing once does. */
  lemma HaltAndClearIdempotent(csr: nat)
    ensures HaltAndClearCsr(HaltAndClearCsr(csr)) == HaltAndClearCsr(csr)
  {
    var h := HaltAndClearCsr(csr);
    forall i: nat
      ensures Bit(HaltAndClearCsr(h), i) == Bit(h, i)
    {
      HaltAndClearBits(h, i);
      HaltAndClearBits(csr, i);
    }
    BitsEqual(HaltAndClearCsr(h), h);
  }

  /** The release step clears HALT, sets FEN, and keeps every other bit. */
  lemma ReleaseBits(csr: nat, i: nat)
    ensures Bit(ReleaseCsr(csr), i) <==>
      if i == FEN then true else if i == HALT then false else Bit(csr, i)
  {
    BitOr(ClearBit(csr, HALT), 1, i);
    BitOne(i);
    ClearBitBits(csr, HALT, i);
  }
}
