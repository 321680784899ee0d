# Register programming and lockstep capture of a FIR filter campaign

This project models the core of `signal-processing.py`, a script that
verifies a hardware FIR filter. The script drives two targets, the device
under test `impl0` and a `golden` reference model, through the same steps.
For each configuration set it resets and enables both targets. It halts
each filter and clears its input buffer and taps. It programs every
coefficient entry into both. It releases the halt and enables the filter.
Then it drives one stimulus vector through both targets in lockstep and
hands the two output lists on to be plotted.

Each target has two registers:

- The control/status register (CSR), at address 0x0. Its bits are FEN
  (bit 0), HALT (bit 5), IBCLR (bit 17) and TCLR (bit 18). The enable bit
  of coefficient `k` is bit `k + 1`.
- The coefficient register, at address 0x4. It holds coefficient `k` in
  the 8-bit lane at bit offset `8 * k`.

Every register update is a read-modify-write. The model proves that each
update changes the bits it names and no others.

Modules, in dependency order:

- `Bits` (bits.dfy): the script's integers are unbounded, so register
  values are `nat`. `|`, `& ~`, `<<`, `>>` and low-bit masking are defined
  by recursion on binary digits. Each comes with a lemma about what it does
  to bit `i`. `BitsEqual` (two numbers with the same bits are equal) turns
  per-bit facts into equalities.
- `Registers` (registers.dfy): the CSR bit constants, the expressions the
  script applies to the CSR (enable, disable, halt and clear, release) and
  the lane packing of the coefficient write, each with its frame lemma.
- `Programmer` (programmer.dfy): `write_coef` and `program_coefficients` as
  functions on the two registers, including the error the Python shifts
  raise on a negative count. Also programming a whole configuration set
  and what it leaves in every enable bit and every lane.
- `Devices` (devices.dfy): a `Device` class with fields `csr` and `coef`.
  Its methods do the script's reads and writes in place, and each is proved
  to yield the state the `Programmer`/`Registers` functions give.
- `Campaign` (campaign.dfy): the main loop. Both targets are programmed
  entry by entry (the DUT first, then the golden model). The capture loop
  drives each sample into the DUT and then the golden model. The outer loop
  runs over the configuration sets. The functions `Configure`, `Responses`
  and `Outputs` give what one target goes through, and the methods are
  proved to follow them. Two targets with the same filter and reset values
  produce identical output lists. This is the golden-against-golden
  self-test.

The model follows what the code does, also where a reader would expect
otherwise:

- A malformed entry would be expected to be rejected before any register
  write. In the code, an entry with index -1 and `en == 1` first writes the
  CSR with bit 0 (FEN) set, then raises in `write_coef` (shift -8). An index
  below -1 raises before any write. Index -1 with any other `en` clears FEN
  and completes.
- Values wider than 8 bits are masked with `& 0xFF`, not rejected.
  Negative values are masked as Python does, which is `value % 256`.
- Any `en` other than 1 disables the coefficient.
- Indices of 4 and above are not rejected. Their lanes are simply higher
  bits of the unbounded coefficient-register value, and their enable bits
  can coincide with HALT, IBCLR or TCLR (index 4 is bit 5). The model keeps
  these collisions. `ConfigureCsr` shows that HALT is still clear and FEN
  still set after release.
- There is no explicit state machine. The fixed order of steps in the
  main loop is the only sequencing, as in the code.

## Model

| member | source | states |
|---|---|---|
| Registers.SetBit | signal-processing.py:72 | `csr OR (1 << b)`, the enable step; `SetBitOnly` gives its effect on every bit |
| Registers.ClearBit | signal-processing.py:76 | `csr AND NOT (1 << b)`, the disable step; `ClearBitOnly` gives its effect on every bit |
| Registers.PackLane | signal-processing.py:57-60 | the coefficient-register update of `write_coef`; `PackLaneBits`, `PackLaneSetsLane` and `PackLaneKeepsRest` give its effect on every bit and lane |
| Registers.HaltAndClearCsr | signal-processing.py:102-106 | the CSR after the halt-and-clear step; `HaltAndClearBits` gives its effect on every bit |
| Registers.ReleaseCsr | signal-processing.py:119-122 | the CSR after the release step; `ReleaseBits` gives its effect on every bit |
| Programmer.WriteCoef | signal-processing.py:56-61 | `write_coef` raises exactly for a negative index and then writes nothing; otherwise lane `k` holds `value & 0xFF`, every other lane is kept, and the CSR is never touched |
| Programmer.Program | signal-processing.py:64-77 | `program_coefficients` on the two registers; `ProgramRaises`, `ProgramEnable`, `ProgramDisable` and `ProgramCsrBit` give its outcome and effect |
| Programmer.ProgramAll | signal-processing.py:111-115 | programming a set in order until an entry raises; `ProgramAllOutcome`, `ProgramAllBit` and `ProgramAllLane` give its outcome, bits and lanes |
| Campaign.Configure | signal-processing.py:97-122 | steps 1 to 3 for one device; `ConfigureOutcome`, `ConfigureCsr` and `ConfigureLane` give its outcome, bits and lanes |
| Campaign.Outputs | signal-processing.py:95-132 | the output lists one device yields over the campaign; `OutputsAt` gives their number, lengths and values |
| Bits.BitShl | signal-processing.py:72 | bit `i` of `x << k` is bit `i - k` of `x` for `i >= k`, and zero below `k` |
| Bits.BitOr | signal-processing.py:72 | bit `i` of x OR y is set exactly when it is set in `x` or in `y` |
| Bits.BitAndNot | signal-processing.py:76 | bit `i` of `x & ~m` is set exactly when it is set in `x` and clear in `m` |
| Bits.BitsEqual | signal-processing.py:59-60 | two register values that agree on every bit are equal (used for every "leaves the register as it was" result) |
| Registers.SetBitOnly | signal-processing.py:72 | setting bit `b` (OR with `1 << b`) leaves bit `b` set and every other bit equal to the old CSR's |
| Registers.ClearBitOnly | signal-processing.py:76 | clearing bit `b` (AND with `~(1 << b)`) leaves bit `b` clear and every other bit equal to the old CSR's |
| Registers.SetClearNoChange | signal-processing.py:72-76 | setting a set bit, or clearing a clear one, returns the CSR unchanged |
| Registers.Mask8Bits | signal-processing.py:60 | `value & 0xFF` is below 256 and has no bit at position 8 or above, for every integer `value` |
| Registers.PackLaneBits | signal-processing.py:57-60 | inside lane `k` the packed register has the bits of `value & 0xFF`; outside it, the old register's bits |
| Registers.PackLaneSetsLane | signal-processing.py:57-61 | after the coefficient write, lane `k` equals `value & 0xFF`, also when `value` exceeds 8 bits or is negative |
| Registers.PackLaneKeepsRest | signal-processing.py:58-60 | the coefficient write keeps every bit outside lane `k`, and every other lane, equal to the old register's |
| Registers.PackLaneIdempotent | signal-processing.py:56-61 | writing the same value into the same lane twice gives the register that writing once gives |
| Registers.HaltAndClearBits | signal-processing.py:102-106 | the halt-and-clear step sets HALT, IBCLR and TCLR and keeps every other CSR bit |
| Registers.HaltAndClearIdempotent | signal-processing.py:102-106 | applying the halt-and-clear step twice gives the CSR that applying it once gives |
| Registers.ReleaseBits | signal-processing.py:119-122 | the release step leaves FEN set and HALT clear, and every other CSR bit as it was |
| Programmer.ProgramRaises | signal-processing.py:64-77 | programming an entry raises exactly for an index below -1 (no register written) or index -1 enabled (CSR written with bit 0 set, coefficient register untouched) |
| Programmer.ProgramEnable | signal-processing.py:71-74 | enabling coefficient `k` completes, sets CSR bit `k + 1`, keeps every other CSR bit, puts `value & 0xFF` in lane `k` and keeps every other lane |
| Programmer.ProgramDisable | signal-processing.py:75-77 | disabling coefficient `k` completes, clears CSR bit `k + 1`, keeps every other CSR bit and leaves the coefficient register unchanged |
| Programmer.ProgramCsrBit | signal-processing.py:71-77 | after a completed step, CSR bit `k + 1` is the entry's enable flag and every other bit is as before |
| Programmer.ProgramIdempotent | signal-processing.py:64-77 | programming the same entry again leaves both registers as the first time did |
| Programmer.EnableThenDisable | signal-processing.py:71-77 | enabling and then disabling coefficient `k` clears bit `k + 1`, keeps every other CSR bit, and restores the CSR exactly when that bit was clear before |
| Programmer.FirstFault | signal-processing.py:111-115 | the first entry of a set whose programming raises: every earlier entry does not raise, and the entry at that position does |
| Programmer.ProgramAllOutcome | signal-processing.py:111-115 | programming a set completes exactly when no entry raises, whatever the registers held before |
| Programmer.ProgramAllBit | signal-processing.py:111-115 | after a set is programmed, each enable bit is the flag of the last entry for its coefficient, or its old value when no entry names it |
| Programmer.ProgramAllLane | signal-processing.py:111-115 | after a set is programmed, each lane holds `value & 0xFF` of the last entry enabling its coefficient, or its old value when none does |
| Programmer.ProgramExample | signal-processing.py:64-77 | entry (0, enabled, 0x3A) on zeroed registers leaves CSR 0x2 and lane 0 equal to 0x3A |
| Devices.Device.ResetAndEnable | signal-processing.py:99-100 | the external reset and enable leave the device's reset register values; the sample history is kept |
| Devices.Device.WriteCoef | signal-processing.py:56-61 | the in-place read-modify-write of the coefficient register yields the registers and outcome of `Programmer.WriteCoef` |
| Devices.Device.ProgramCoefficients | signal-processing.py:64-77 | reads the CSR first and writes both registers in place, yielding exactly the registers and outcome of `Programmer.Program` on the old registers |
| Devices.Device.HaltAndClear | signal-processing.py:102-106 | the CSR becomes the halt-and-clear of the old CSR; the coefficient register is unchanged |
| Devices.Device.Release | signal-processing.py:119-122 | the CSR becomes the release of the old CSR; the coefficient register is unchanged |
| Devices.Device.DriveAndCapture | signal-processing.py:35-37 | appends the sample to the device's history, leaves the registers unchanged, and returns the device's response to that history |
| Campaign.ConfigureOutcome | signal-processing.py:95-122 | setting a device up for a set completes exactly when no entry raises, independently of the reset values |
| Campaign.ConfigureCsr | signal-processing.py:97-122 | a configured device has FEN set and HALT clear; every other CSR bit is the last entry's enable flag for its coefficient, or else set for IBCLR and TCLR and the reset value elsewhere |
| Campaign.ConfigureLane | signal-processing.py:108-122 | on a configured device each lane holds the last enabled entry's `value & 0xFF`, or its reset value |
| Campaign.Responses | signal-processing.py:127-132 | a device's output list for a stimulus vector has one output per sample |
| Campaign.ResponsesAt | signal-processing.py:130-132 | output `i` is the device's response to the history ending with sample `i`, after all earlier samples |
| Campaign.Completed | signal-processing.py:95-115 | the number of leading configuration sets programmed without a fault; the set after them raises |
| Campaign.OutputsAt | signal-processing.py:95-132 | a campaign yields one output list per completed set; list `i` has the vector's length and is the response, on set `i`'s registers, to the vector after `i` earlier runs |
| Campaign.ProgramBoth | signal-processing.py:111-115 | entry-major programming: the DUT has the whole set programmed (up to and including a raising entry), the golden model every entry before the first raising one |
| Campaign.SetUpBoth | signal-processing.py:97-122 | after reset, halt, programming and release, each device holds the registers `Configure` gives; on a fault the golden model holds the prefix before the fault |
| Campaign.CaptureBoth | signal-processing.py:127-132 | the two output lists are each device's `Responses` to the stimulus vector, index-aligned with it; both histories grow by the vector and no register changes |
| Campaign.RunConfiguration | signal-processing.py:95-132 | one pass of the main loop: both devices are configured with the same outcome; the DUT holds `Configure`'s registers, the golden model too on success and the entries before the fault otherwise; on success each output list is that device's `Responses` on its configured registers and each history grows by the vector; on a fault both lists are empty and no history changes |
| Campaign.RunCampaign | signal-processing.py:91-144 | the per-set output lists of both devices are each device's `Outputs`; the run completes exactly when every set programs; two devices with the same filter, reset values and history produce identical lists; each history grows by one copy of the vector per completed set; both devices end with the registers of the last set processed (or unchanged when there is none) |

## Left out

- Process invocation (`os.popen`, `os.system`, `subprocess.run`) is not modelled. Register reads and writes are field reads and assignments on a `Device` object. Transport failures, output parsing with `int(..., 16)` and the printed logging are left out too.
- Devices.Device.ResetAndEnable: the external `reset` and `enable` commands are opaque. The model assumes they leave fixed, per-device register values (`resetCsr`, `resetCoef`). Any other effect they have on the device is left out.
- Devices.Device.DriveAndCapture: the filter itself is not modelled. A device's output is an arbitrary per-device function (`respond`) of its two registers and the samples driven so far. That history is every sample since the device was built: the effect of reset and of the IBCLR and TCLR clears on what the filter remembers is not modelled, so the model cannot tell a device that honours the clears from one that does not.
- `drive_signal` and `golden_drive` are left out: they are shell wrappers that the script never calls.
- The file parsing in `read_cfg_file` and `read_vec_file` is left out. Configuration sets are given as sequences of `Entry` values, and the stimulus vector as a sequence of integers. The file names `p0.cfg` … `p9.cfg` and `sqr.vec` only select those inputs.
- Plotting with matplotlib is left out. `RunCampaign` returns the output lists that would be plotted.
- No register-address scheme for coefficient indices of 4 and above: the script always writes address 0x4.
