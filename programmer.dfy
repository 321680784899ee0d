/** Installing coefficient entries (`program_coefficients` and `write_coef`
    of signal-processing.py) as functions on the two registers of one
    device. The read-modify-write discipline is what the lemmas here are
    about: programming one entry changes its own enable bit and its own
    lane, and nothing else. */
module Programmer {
  import opened Bits
  import opened Registers

  datatype Option<T> = None | Some(value: T)

  /** One line of a configuration file: coefficient index, enable flag, value
      (the script parses all three as unbounded integers). */
  datatype Entry = Entry(coef: int, en: int, value: int)

  /** The one error the register arithmetic can raise: a shift by a negative
      count (Python's `ValueError: negative shift count`). */
  datatype Fault = NegativeShiftCount

  datatype Outcome = Done | Failed(fault: Fault)

  /** The contents of a device's CSR (address 0x0) and coefficient register (address 0x4). */
  datatype RegisterFile = RegisterFile(csr: nat, coef: nat)

  /** The registers after an operation, and whether the operation completed.
      After a fault the registers hold whatever had been written before it. */
  datatype Step = Step(regs: RegisterFile, outcome: Outcome)

  /** `write_coef`: read the coefficient register, clear lane `coefIdx`, OR in
      `value & 0xFF`, write it back. The shift `coefIdx * 8` must not be negative. */
  function WriteCoef(r: RegisterFile, value: int, coefIdx: int): (s: Step)
    ensures s.outcome.Failed? <==> coefIdx < 0
    ensures s.outcome.Failed? ==> s.regs == r
    ensures s.regs.csr == r.csr
    ensures s.outcome == Done ==> Lane(s.regs.coef, coefIdx) == Mask8(value)
    ensures s.outcome == Done ==> forall n: nat :: n != coefIdx ==> Lane(s.regs.coef, n) == Lane(r.coef, n)
  {
    if coefIdx * 8 < 0 then Step(r, Failed(NegativeShiftCount))
    else
      PackLaneSetsLane(r.coef, coefIdx, value);
      PackLaneKeepsRest(r.coef, coefIdx, value);
      Step(RegisterFile(r.csr, PackLane(r.coef, coefIdx, value)), Done)
  }

  /** `program_coefficients`: read the CSR; when `en == 1` set the enable bit,
      write the CSR and then write the value into its lane; otherwise clear the
      enable bit and write the CSR. `1 << (coef + 1)` faults before anything is
      written when `coef + 1` is negative. */
  function Program(r: RegisterFile, e: Entry): Step
  {
    var b := EnableBitOf(e.coef);
    if b < 0 then Step(r, Failed(NegativeShiftCount))
    else if e.en == 1 then WriteCoef(RegisterFile(SetBit(r.csr, b), r.coef), e.value, e.coef)
    else Step(RegisterFile(ClearBit(r.csr, b), r.coef), Done)
  }

  /** The entries whose programming raises: an index below -1 (a negative CSR
      shift), or index -1 enabled (the CSR shift is 0, the lane shift is -8). */
  predicate Raises(e: Entry)
  {
    e.coef < -1 || (e.coef == -1 && e.en == 1)
  }

  /** Programming raises exactly for the entries `Raises` names; an index below
      -1 raises before any write, index -1 enabled raises after the CSR write
      that set bit 0. */
  lemma ProgramRaises(r: RegisterFile, e: Entry)
    ensures Program(r, e).outcome.Failed? <==> Raises(e)
    ensures e.coef < -1 ==> Program(r, e).regs == r
    ensures e.coef == -1 && e.en == 1 ==>
      Program(r, e).regs == RegisterFile(SetBit(r.csr, 0), r.coef) && Bit(Program(r, e).regs.csr, FEN)
  {
  }

  /** Enabling coefficient `k` sets CSR bit `k + 1`, leaves every other CSR bit
      as it was, puts `value & 0xFF` in lane `k` and leaves the other lanes. */
  lemma ProgramEnable(r: RegisterFile, e: Entry)
    requires e.en == 1 && e.coef >= 0
    ensures Program(r, e).outcome == Done
    ensures Bit(Program(r, e).regs.csr, e.coef + 1)
    ensures forall i: nat :: i != e.coef + 1 ==> (Bit(Program(r, e).regs.csr, i) <==> Bit(r.csr, i))
    ensures Lane(Program(r, e).regs.coef, e.coef) == Mask8(e.value)
    ensures forall n: nat :: n != e.coef ==> Lane(Program(r, e).regs.coef, n) == Lane(r.coef, n)
  {
    SetBitOnly(r.csr, e.coef + 1);
    PackLaneSetsLane(r.coef, e.coef, e.value);
    PackLaneKeepsRest(r.coef, e.coef, e.value);
  }

  /** Disabling coefficient `k` clears CSR bit `k + 1`, leaves every other CSR
      bit, and does not touch the coefficient register. */
  lemma ProgramDisable(r: RegisterFile, e: Entry)
    requires e.en != 1 && e.coef >= -1
    ensures Program(r, e).outcome == Done
    ensures !Bit(Program(r, e).regs.csr, e.coef + 1)
    ensures forall i: nat :: i != e.coef + 1 ==> (Bit(Program(r, e).regs.csr, i) <==> Bit(r.csr, i))
    ensures Program(r, e).regs.coef == r.coef
  {
    ClearBitOnly(r.csr, e.coef + 1);
  }

  /** Bit `i` of the CSR after a completed programming step. */
  lemma ProgramCsrBit(r: RegisterFile, e: Entry, i: nat)
    requires Program(r, e).outcome == Done
    ensures Bit(Program(r, e).regs.csr, i) <==> if i == e.coef + 1 then e.en == 1 else Bit(r.csr, i)
  {
    ProgramRaises(r, e);
    if e.en == 1 { ProgramEnable(r, e); } else { ProgramDisable(r, e); }
  }

  /** Programming the same entry a second time changes nothing. */
  lemma ProgramIdempotent(r: RegisterFile, e: Entry)
    requires Program(r, e).outcome == Done
    ensures Program(Program(r, e).regs, e) == Program(r, e)
  {
    ProgramRaises(r, e);
    var p := Program(r, e).regs;
    var b := e.coef + 1;
    if e.en == 1 {
      SetBitOnly(r.csr, b);
      SetClearNoChange(p.csr, b);
      PackLaneIdempotent(r.coef, e.coef, e.value);
    } else {
      ClearBitOnly(r.csr, b);
      SetClearNoChange(p.csr, b);
    }
  }

  /** Enabling coefficient `k` and then disabling it leaves every CSR bit but
      `k + 1` as it was, and bit `k + 1` clear; when that bit was clear before,
      the CSR is back to its old value. */
  lemma EnableThenDisable(r: RegisterFile, on: Entry, off: Entry)
    requires on.coef == off.coef >= 0 && on.en == 1 && off.en != 1
    ensures Program(Program(r, on).regs, off).outcome == Done
    ensures !Bit(Program(Program(r, on).regs, off).regs.csr, on.coef + 1)
    ensures forall i: nat :: i != on.coef + 1 ==>
      (Bit(Program(Program(r, on).regs, off).regs.csr, i) <==> Bit(r.csr, i))
    ensures Program(Program(r, on).regs, off).regs.csr == r.csr <==> !Bit(r.csr, on.coef + 1)
  {
    var p := Program(r, on).regs;
    var q := Program(p, off).regs;
    ProgramEnable(r, on);
    ProgramDisable(p, off);
    if !Bit(r.csr, on.coef + 1) {
      forall i: nat
        ensures Bit(q.csr, i) == Bit(r.csr, i)
      {
      }
      BitsEqual(q.csr, r.csr);
    }
  }

  /** Program the entries of a configuration set in order, stopping at the
      first one that raises. */
  function ProgramAll(r: RegisterFile, es: seq<Entry>): Step
    decreases |es|
  {
    if es == [] then Step(r, Done)
    else
      var s := Program(r, es[0]);
      if s.outcome.Failed? then s else ProgramAll(s.regs, es[1..])
  }

  /** The position of the first entry that raises, or `|es|` when none does. */
  function FirstFault(es: seq<Entry>): (k: nat)
    ensures k <= |es|
    ensures forall j :: 0 <= j < k ==> !Raises(es[j])
    ensures k < |es| ==> Raises(es[k])
  {
    if es == [] then 0
    else if Raises(es[0]) then 0
    else 1 + FirstFault(es[1..])
  }

  /** The last entry for coefficient `k`, if any. */
  function LastEntry(es: seq<Entry>, k: int): Option<Entry>
    decreases |es|
  {
    if es == [] then None
    else match LastEntry(es[1..], k)
      case Some(e) => Some(e)
      case None => if es[0].coef == k then Some(es[0]) else None
  }

  /** The last entry that enables coefficient `k`, if any. */
  function LastEnabled(es: seq<Entry>, k: int): Option<Entry>
    decreases |es|
  {
    if es == [] then None
    else match LastEnabled(es[1..], k)
      case Some(e) => Some(e)
      case None => if es[0].coef == k && es[0].en == 1 then Some(es[0]) else None
  }

  /** Programming a configuration set completes exactly when no entry raises,
      whatever the registers held before. */
  lemma {:induction false} ProgramAllOutcome(r: RegisterFile, es: seq<Entry>)
    ensures ProgramAll(r, es).outcome == if FirstFault(es) == |es| then Done else Failed(NegativeShiftCount)
    decreases |es|
  {
    if es != [] {
      var s := Program(r, es[0]);
      ProgramRaises(r, es[0]);
      if !Raises(es[0]) {
        ProgramAllOutcome(s.regs, es[1..]);
      }
    }
  }

  /** After a configuration set is programmed, enable bit `i` is set exactly
      when the last entry for coefficient `i - 1` enables it, and is as before
      when no entry names that coefficient: earlier entries and entries for
      other coefficients never disturb it. */
  lemma {:induction false} ProgramAllBit(r: RegisterFile, es: seq<Entry>, i: nat)
    requires ProgramAll(r, es).outcome == Done
    ensures Bit(ProgramAll(r, es).regs.csr, i) <==>
      match LastEntry(es, i - 1)
      case None => Bit(r.csr, i)
      case Some(e) => e.en == 1
    decreases |es|
  {
    if es != [] {
      var s := Program(r, es[0]);
      ProgramCsrBit(r, es[0], i);
      ProgramAllBit(s.regs, es[1..], i);
    }
  }

  /** After a configuration set is programmed, lane `n` holds `value & 0xFF` of
      the last entry that enables coefficient `n`, and is as before when no
      entry enables it. */
  lemma {:induction false} ProgramAllLane(r: RegisterFile, es: seq<Entry>, n: nat)
    requires ProgramAll(r, es).outcome == Done
    ensures Lane(ProgramAll(r, es).regs.coef, n) ==
      match LastEnabled(es, n)
      case None => Lane(r.coef, n)
      case Some(e) => Mask8(e.value)
    decreases |es|
  {
    if es != [] {
      var e := es[0];
      var s := Program(r, e);
      ProgramRaises(r, e);
      if e.en == 1 { ProgramEnable(r, e); } else { ProgramDisable(r, e); }
      ProgramAllLane(s.regs, es[1..], n);
    }
  }

  /** The register values of the single-entry example: entry (0, enabled, 0x3A)
      on an all-zero device sets CSR bit 1 (0x2) and lane 0 to 0x3A. */
  lemma ProgramExample()
    ensures Program(RegisterFile(0, 0), Entry(0, 1, 0x3A)).outcome == Done
    ensures Program(RegisterFile(0, 0), Entry(0, 1, 0x3A)).regs.csr == 0x2
    ensures Lane(Program(RegisterFile(0, 0), Entry(0, 1, 0x3A)).regs.coef, 0) == 0x3A
  {
    var r := RegisterFile(0, 0);
    var e := Entry(0, 1, 0x3A);
    assert SetBit(0, 1) == 2 by {
      assert Shl(1, 1) == 2 && Or(0, 2) == 2;
    }
    assert PackLane(0, 0, 0x3A) == 0x3A by {
      assert Shl(255, 0) == 255 && AndNot(0, 255) == 0;
      assert Mask8(0x3A) == 0x3A && Shl(0x3A, 0) == 0x3A && Or(0, 0x3A) == 0x3A;
    }
    assert Program(r, e) == Step(RegisterFile(2, 0x3A), Done);
    assert Lane(0x3A, 0) == 0x3A by {
      assert Shr(0x3A, 0) == 0x3A && Low(0x3A, 8) == 0x3A;
    }
  }
}
