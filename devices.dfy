/** One controllable filter (the DUT `impl0` or the `golden` model) as an
    object whose two registers the script reads and writes in place. The
    external commands behind `read_csr`, `write_csr`, `read_coef` and the
    coefficient write become reads and assignments of the fields `csr`
    and `coef`; each method says its new state through the functions of
    module Programmer. */
module Devices {
  import opened Bits
  import opened Registers
  import opened Programmer

  class Device {
    /** The control/status register, address 0x0. */
    var csr: nat
    /** The coefficient register, address 0x4. */
    var coef: nat
    /** Every stimulus sample driven into the device so far, oldest first. */
    var driven: seq<int>
    /** The device's output for its current registers and the samples driven
        so far, the newest last: the filter itself, which the script never sees. */
    const respond: (nat, nat, seq<int>) -> int
    /** What the external `reset` and `enable` commands leave in the registers. */
    const resetCsr: nat
    const resetCoef: nat

    constructor (respond: (nat, nat, seq<int>) -> int, resetCsr: nat, resetCoef: nat)
      ensures this.respond == respond && this.resetCsr == resetCsr && this.resetCoef == resetCoef
      ensures csr == resetCsr && coef == resetCoef && driven == []
    {
      this.respond := respond;
      this.resetCsr := resetCsr;
      this.resetCoef := resetCoef;
      csr := resetCsr;
      coef := resetCoef;
      driven := [];
    }

    /** The two registers as they stand. */
    function Regs(): RegisterFile
      reads this
    {
      RegisterFile(csr, coef)
    }

    /** The two registers as reset and enable leave them. */
    function ResetRegisters(): RegisterFile
    {
      RegisterFile(resetCsr, resetCoef)
    }

    /** The `reset` and `enable` commands. */
    method ResetAndEnable()
      modifies this
      ensures Regs() == ResetRegisters() && driven == old(driven)
    {
      csr := resetCsr;
      coef := resetCoef;
    }

    /** `write_coef`: read-modify-write of lane `coefIdx` of the coefficient register. */
    method WriteCoef(value: int, coefIdx: int) returns (o: Outcome)
      modifies this
      ensures Step(Regs(), o) == Programmer.WriteCoef(old(Regs()), value, coefIdx)
      ensures driven == old(driven)
    {
      var shift := coefIdx * 8;
      var reg := coef;
      if shift < 0 {
        return Failed(NegativeShiftCount);
      }
      reg := AndNot(reg, Shl(255, shift));
      reg := Or(reg, Shl(Mask8(value), shift));
      coef := reg;
      o := Done;
    }

    /** `program_coefficients`: always read the CSR first, then set or clear the
        entry's enable bit and write the CSR back; an enabled entry then has its
        value written. */
    method ProgramCoefficients(e: Entry) returns (o: Outcome)
      modifies this
      ensures Step(Regs(), o) == Program(old(Regs()), e)
      ensures driven == old(driven)
    {
      var c := csr;
      var b := EnableBitOf(e.coef);
      if b < 0 {
        return Failed(NegativeShiftCount);
      }
      if e.en == 1 {
        c := Or(c, Shl(1, b));
        csr := c;
        o := WriteCoef(e.value, e.coef);
      } else {
        c := AndNot(c, Shl(1, b));
        csr := c;
        o := Done;
      }
    }

    /** Read the CSR, set HALT, IBCLR and TCLR, write it back. */
    method HaltAndClear()
      modifies this
      ensures csr == HaltAndClearCsr(old(csr))
      ensures coef == old(coef) && driven == old(driven)
    {
      var c := csr;
      c := Or(c, Shl(1, HALT));
      c := Or(c, Shl(1, IBCLR));
      c := Or(c, Shl(1, TCLR));
      csr := c;
    }

    /** Read the CSR, clear HALT, set FEN, write it back. */
    method Release()
      modifies this
      ensures csr == ReleaseCsr(old(csr))
      ensures coef == old(coef) && driven == old(driven)
    {
      var c := csr;
      c := AndNot(c, Shl(1, HALT));
      c := Or(c, 1);
      csr := c;
    }

    /** `drive_and_capture`: push one sample into the device and read its output. */
    method DriveAndCapture(v: int) returns (y: int)
      modifies this
      ensures driven == old(driven) + [v]
      ensures Regs() == old(Regs())
      ensures y == respond(csr, coef, driven)
    {
      driven := driven + [v];
      y := respond(csr, coef, driven);
    }
  }
}
