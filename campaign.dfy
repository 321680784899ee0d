/** The main loop of the campaign script: for every configuration set,
    reset, halt and clear both devices, program every entry into both
    (entry by entry, the DUT before the golden model), release both,
    then drive the stimulus vector through both in lockstep and hand the
    two output lists to the reporting step. The functions here say what
    one device goes through; the methods run the two devices together
    and are proved to follow them. */
module Campaign {
  import opened Bits
  import opened Registers
  import opened Programmer
  import opened Devices

  /** The registers once the halt-and-clear step has run. */
  function Halted(r: RegisterFile): RegisterFile
  {
    RegisterFile(HaltAndClearCsr(r.csr), r.coef)
  }

  /** Steps 1 to 3 for one device: from the registers that reset leaves,
      halt and clear, program the set, and release when no entry raised. */
  function Configure(reset: RegisterFile, es: seq<Entry>): Step
  {
    var s := ProgramAll(Halted(reset), es);
    if s.outcome.Failed? then s
    else Step(RegisterFile(ReleaseCsr(s.regs.csr), s.regs.coef), Done)
  }

  /** Configuring succeeds exactly when no entry of the set raises, on any
      device: the outcome does not depend on what reset left in the registers. */
  lemma ConfigureOutcome(reset: RegisterFile, es: seq<Entry>)
    ensures Configure(reset, es).outcome == Done <==> FirstFault(es) == |es|
  {
    ProgramAllOutcome(Halted(reset), es);
  }

  /** A configured device runs: FEN is set and HALT is clear. Every other CSR
      bit is the enable flag of the last entry for its coefficient, or, when
      no entry names that coefficient, IBCLR and TCLR are set and the rest is
      as reset left it. */
  lemma ConfigureCsr(reset: RegisterFile, es: seq<Entry>, i: nat)
    requires Configure(reset, es).outcome == Done
    ensures Bit(Configure(reset, es).regs.csr, FEN)
    ensures !Bit(Configure(reset, es).regs.csr, HALT)
    ensures i != FEN && i != HALT ==>
      (Bit(Configure(reset, es).regs.csr, i) <==>
        match LastEntry(es, i - 1)
        case None => i == IBCLR || i == TCLR || Bit(reset.csr, i)
        case Some(e) => e.en == 1)
  {
    var s := ProgramAll(Halted(reset), es);
    ReleaseBits(s.regs.csr, FEN);
    ReleaseBits(s.regs.csr, HALT);
    ReleaseBits(s.regs.csr, i);
    ProgramAllBit(Halted(reset), es, i);
    HaltAndClearBits(reset.csr, i);
  }

  /** On a configured device lane `n` holds `value & 0xFF` of the last entry
      that enables coefficient `n`, or what reset left there. */
  lemma ConfigureLane(reset: RegisterFile, es: seq<Entry>, n: nat)
    requires Configure(reset, es).outcome == Done
    ensures Lane(Configure(reset, es).regs.coef, n) ==
      match LastEnabled(es, n)
      case None => Lane(reset.coef, n)
      case Some(e) => Mask8(e.value)
  {
    ProgramAllLane(Halted(reset), es, n);
  }

  /** The outputs of one device for a stimulus vector, given its registers and
      the samples driven into it before: one output per sample, each computed
      on the history that ends with that sample. */
  function Responses(respond: (nat, nat, seq<int>) -> int, regs: RegisterFile,
                     prior: seq<int>, vec: seq<int>): (out: seq<int>)
    ensures |out| == |vec|
    decreases |vec|
  {
    if vec == [] then []
    else
      var trace := prior + [vec[0]];
      [respond(regs.csr, regs.coef, trace)] + Responses(respond, regs, trace, vec[1..])
  }

  /** Output `i` is the device's response to sample `i`, after every earlier sample. */
  lemma {:induction false} ResponsesAt(respond: (nat, nat, seq<int>) -> int, regs: RegisterFile,
                                       prior: seq<int>, vec: seq<int>, i: nat)
    requires i < |vec|
    ensures Responses(respond, regs, prior, vec)[i] == respond(regs.csr, regs.coef, prior + vec[..i + 1])
    decreases |vec|
  {
    if i == 0 {
      assert vec[..1] == [vec[0]];
    } else {
      var trace := prior + [vec[0]];
      ResponsesAt(respond, regs, trace, vec[1..], i - 1);
      assert trace + vec[1..][..i] == prior + vec[..i + 1];
    }
  }

  /** `n` copies of `vec`, one after the other. */
  function Repeat(vec: seq<int>, n: nat): seq<int>
  {
    if n == 0 then [] else vec + Repeat(vec, n - 1)
  }

  /** One more copy of `vec` at the end is one more copy at the front. */
  lemma {:induction false} RepeatAppend(vec: seq<int>, n: nat)
    ensures Repeat(vec, n) + vec == Repeat(vec, n + 1)
  {
    if n > 0 {
      RepeatAppend(vec, n - 1);
      assert Repeat(vec, n) + vec == vec + (Repeat(vec, n - 1) + vec);
    }
  }

  /** A history of `n` runs after `prior`, followed by one more run. */
  lemma HistoryAppend(prior: seq<int>, vec: seq<int>, n: nat, h: seq<int>)
    requires h == prior + Repeat(vec, n)
    ensures h + vec == prior + Repeat(vec, n + 1)
  {
    RepeatAppend(vec, n);
    assert h + vec == prior + (Repeat(vec, n) + vec);
  }

  /** The number of leading configuration sets that program without a fault;
      the script stops at the first one that raises. */
  function Completed(configs: seq<seq<Entry>>): (k: nat)
    ensures k <= |configs|
    ensures forall j :: 0 <= j < k ==> FirstFault(configs[j]) == |configs[j]|
    ensures k < |configs| ==> FirstFault(configs[k]) < |configs[k]|
  {
    if configs == [] then 0
    else if FirstFault(configs[0]) < |configs[0]| then 0
    else 1 + Completed(configs[1..])
  }

  /** What one device outputs over the whole campaign: one output list per
      configuration set, until a set raises while it is programmed. */
  function Outputs(respond: (nat, nat, seq<int>) -> int, reset: RegisterFile, prior: seq<int>,
                   configs: seq<seq<Entry>>, vec: seq<int>): seq<seq<int>>
    decreases |configs|
  {
    if configs == [] then []
    else
      var s := Configure(reset, configs[0]);
      if s.outcome.Failed? then []
      else [Responses(respond, s.regs, prior, vec)] + Outputs(respond, reset, prior + vec, configs[1..], vec)
  }

  /** The campaign yields one output list per completed configuration set;
      list `i` has one entry per stimulus sample and is the device's response,
      on the registers of set `i`, to the vector driven after `i` earlier runs
      of it. */
  lemma {:induction false} OutputsAt(respond: (nat, nat, seq<int>) -> int, reset: RegisterFile,
                                     prior: seq<int>, configs: seq<seq<Entry>>, vec: seq<int>, i: nat)
    ensures |Outputs(respond, reset, prior, configs, vec)| == Completed(configs)
    ensures i < Completed(configs) ==>
      |Outputs(respond, reset, prior, configs, vec)[i]| == |vec| &&
      Outputs(respond, reset, prior, configs, vec)[i] ==
        Responses(respond, Configure(reset, configs[i]).regs, prior + Repeat(vec, i), vec)
    decreases |configs|
  {
    if configs != [] {
      ConfigureOutcome(reset, configs[0]);
      if FirstFault(configs[0]) == |configs[0]| {
        OutputsAt(respond, reset, prior + vec, configs[1..], vec, if i > 0 then i - 1 else 0);
        if i == 0 {
          assert prior + Repeat(vec, 0) == prior;
        } else if i < Completed(configs) {
          assert configs[1..][i - 1] == configs[i];
          assert prior + vec + Repeat(vec, i - 1) == prior + Repeat(vec, i);
        }
      }
    }
  }

  /** One pass of the main loop, seen from the campaign's result: a set that
      programs adds its output list, a set that raises ends the campaign. */
  lemma OutputsStep(respond: (nat, nat, seq<int>) -> int, reset: RegisterFile, prior: seq<int>,
                    configs: seq<seq<Entry>>, vec: seq<int>, i: nat,
                    runs: seq<seq<int>>, out: seq<int>, want: seq<seq<int>>)
    requires i < |configs|
    requires want == runs + Outputs(respond, reset, prior, configs[i..], vec)
    requires Configure(reset, configs[i]).outcome == Done ==>
      out == Responses(respond, Configure(reset, configs[i]).regs, prior, vec)
    ensures Configure(reset, configs[i]).outcome.Failed? ==> want == runs
    ensures Configure(reset, configs[i]).outcome == Done ==>
      want == (runs + [out]) + Outputs(respond, reset, prior + vec, configs[i + 1..], vec)
  {
  }

  /** Step 2: program every entry into both devices, entry by entry, the DUT
      first. A raising entry stops the script after it reached the DUT and
      before it reached the golden model. */
  method ProgramBoth(dut: Device, golden: Device, es: seq<Entry>) returns (o: Outcome)
    requires dut != golden
    modifies dut, golden
    ensures o == ProgramAll(old(dut.Regs()), es).outcome
    ensures dut.Regs() == ProgramAll(old(dut.Regs()), es).regs
    ensures golden.Regs() == ProgramAll(old(golden.Regs()), es[..FirstFault(es)]).regs
    ensures dut.driven == old(dut.driven) && golden.driven == old(golden.driven)
  {
    ghost var f := FirstFault(es);
    var j := 0;
    while j < |es|
      invariant 0 <= j <= f
      invariant ProgramAll(old(dut.Regs()), es) == ProgramAll(dut.Regs(), es[j..])
      invariant ProgramAll(old(golden.Regs()), es[..f]) == ProgramAll(golden.Regs(), es[j..f])
      invariant dut.driven == old(dut.driven) && golden.driven == old(golden.driven)
    {
      var cfg := es[j];
      assert es[j..][0] == cfg && es[j..][1..] == es[j + 1..];
      ghost var before := dut.Regs();
      o := dut.ProgramCoefficients(cfg);
      if o.Failed? {
        assert j == f;
        assert es[j..f] == [];
        return;
      }
      assert j < f;
      assert es[j..f][0] == cfg && es[j..f][1..] == es[j + 1..f];
      var og := golden.ProgramCoefficients(cfg);
      assert og == Done;
      j := j + 1;
    }
    assert es[..f] == es;
    o := Done;
  }

  /** Steps 1 to 3 for both devices: reset, enable, halt and clear each; program
      the set into both; release each. */
  method SetUpBoth(dut: Device, golden: Device, es: seq<Entry>) returns (o: Outcome)
    requires dut != golden
    modifies dut, golden
    ensures o == Configure(dut.ResetRegisters(), es).outcome
    ensures o == Configure(golden.ResetRegisters(), es).outcome
    ensures dut.Regs() == Configure(dut.ResetRegisters(), es).regs
    ensures o == Done ==> golden.Regs() == Configure(golden.ResetRegisters(), es).regs
    ensures o.Failed? ==>
      golden.Regs() == ProgramAll(Halted(golden.ResetRegisters()), es[..FirstFault(es)]).regs
    ensures dut.driven == old(dut.driven) && golden.driven == old(golden.driven)
  {
    dut.ResetAndEnable();
    dut.HaltAndClear();
    golden.ResetAndEnable();
    golden.HaltAndClear();
    ConfigureOutcome(dut.ResetRegisters(), es);
    ConfigureOutcome(golden.ResetRegisters(), es);
    ProgramAllOutcome(Halted(golden.ResetRegisters()), es);
    o := ProgramBoth(dut, golden, es);
    if o.Failed? {
      return;
    }
    assert es[..FirstFault(es)] == es;
    dut.Release();
    golden.Release();
  }

  /** Step 4: drive every stimulus sample into the DUT and then into the golden
      model, appending each output to its own list. */
  method CaptureBoth(dut: Device, golden: Device, vec: seq<int>) returns (dutOut: seq<int>, goldenOut: seq<int>)
    requires dut != golden
    modifies dut, golden
    ensures dutOut == Responses(dut.respond, old(dut.Regs()), old(dut.driven), vec)
    ensures goldenOut == Responses(golden.respond, old(golden.Regs()), old(golden.driven), vec)
    ensures dut.driven == old(dut.driven) + vec && golden.driven == old(golden.driven) + vec
    ensures dut.Regs() == old(dut.Regs()) && golden.Regs() == old(golden.Regs())
  {
    dutOut, goldenOut := [], [];
    var i := 0;
    while i < |vec|
      invariant 0 <= i <= |vec|
      invariant dut.Regs() == old(dut.Regs()) && golden.Regs() == old(golden.Regs())
      invariant dut.driven == old(dut.driven) + vec[..i] && golden.driven == old(golden.driven) + vec[..i]
      invariant Responses(dut.respond, old(dut.Regs()), old(dut.driven), vec)
                == dutOut + Responses(dut.respond, dut.Regs(), dut.driven, vec[i..])
      invariant Responses(golden.respond, old(golden.Regs()), old(golden.driven), vec)
                == goldenOut + Responses(golden.respond, golden.Regs(), golden.driven, vec[i..])
    {
      var v := vec[i];
      assert vec[i..][0] == v && vec[i..][1..] == vec[i + 1..];
      assert vec[..i + 1] == vec[..i] + [v];
      var y := dut.DriveAndCapture(v);
      dutOut := dutOut + [y];
      var z := golden.DriveAndCapture(v);
      goldenOut := goldenOut + [z];
      i := i + 1;
    }
    assert vec[..i] == vec;
  }

  /** The registers both devices hold after one pass over set `es` with
      outcome `o`: the DUT holds what configuring the set leaves; so does the
      golden model when the set completed, and otherwise it holds the entries
      before the first raising one. */
  ghost predicate Reached(dut: Device, golden: Device, es: seq<Entry>, o: Outcome)
    reads dut, golden
  {
    dut.Regs() == Configure(dut.ResetRegisters(), es).regs &&
    (o == Done ==> golden.Regs() == Configure(golden.ResetRegisters(), es).regs) &&
    (o.Failed? ==> golden.Regs() == ProgramAll(Halted(golden.ResetRegisters()), es[..FirstFault(es)]).regs)
  }

  /** One pass of the main loop: steps 1 to 4 for one configuration set. */
  method RunConfiguration(dut: Device, golden: Device, es: seq<Entry>, vec: seq<int>)
    returns (dutOut: seq<int>, goldenOut: seq<int>, o: Outcome)
    requires dut != golden
    modifies dut, golden
    ensures o == Configure(dut.ResetRegisters(), es).outcome
    ensures o == Configure(golden.ResetRegisters(), es).outcome
    ensures Reached(dut, golden, es, o)
    ensures o == Done ==>
      dutOut == Responses(dut.respond, Configure(dut.ResetRegisters(), es).regs, old(dut.driven), vec) &&
      goldenOut == Responses(golden.respond, Configure(golden.ResetRegisters(), es).regs, old(golden.driven), vec) &&
      dut.driven == old(dut.driven) + vec && golden.driven == old(golden.driven) + vec
    ensures o.Failed? ==>
      dutOut == [] && goldenOut == [] &&
      dut.driven == old(dut.driven) && golden.driven == old(golden.driven)
  {
    o := SetUpBoth(dut, golden, es);
    if o.Failed? {
      return [], [], o;
    }
    dutOut, goldenOut := CaptureBoth(dut, golden, vec);
  }

  /** Both devices come from the same filter and reset to the same registers. */
  ghost predicate SameDevice(a: Device, b: Device)
  {
    a.respond == b.respond && a.ResetRegisters() == b.ResetRegisters()
  }

  /** The campaign: for each configuration set, set up both devices, capture
      both output lists and hand them on, until a set raises. */
  method RunCampaign(dut: Device, golden: Device, configs: seq<seq<Entry>>, vec: seq<int>)
    returns (dutRuns: seq<seq<int>>, goldenRuns: seq<seq<int>>, o: Outcome)
    requires dut != golden
    modifies dut, golden
    ensures dutRuns == Outputs(dut.respond, dut.ResetRegisters(), old(dut.driven), configs, vec)
    ensures goldenRuns == Outputs(golden.respond, golden.ResetRegisters(), old(golden.driven), configs, vec)
    ensures |dutRuns| <= |configs|
    ensures o == Done <==> |dutRuns| == |configs|
    ensures |goldenRuns| == |dutRuns|
    ensures SameDevice(dut, golden) && old(dut.driven) == old(golden.driven) ==> dutRuns == goldenRuns
    ensures dut.driven == old(dut.driven) + Repeat(vec, |dutRuns|)
    ensures golden.driven == old(golden.driven) + Repeat(vec, |goldenRuns|)
    ensures configs == [] ==> dut.Regs() == old(dut.Regs()) && golden.Regs() == old(golden.Regs())
    ensures configs != [] ==>
      Reached(dut, golden, configs[if o == Done then |configs| - 1 else |dutRuns|], o)
  {
    ghost var fd, rd := dut.respond, dut.ResetRegisters();
    ghost var fg, rg := golden.respond, golden.ResetRegisters();
    ghost var od, og := dut.Regs(), golden.Regs();
    ghost var pd, pg := dut.driven, golden.driven;
    ghost var wantD := Outputs(fd, rd, pd, configs, vec);
    ghost var wantG := Outputs(fg, rg, pg, configs, vec);
    dutRuns, goldenRuns := [], [];
    o := Done;
    var i := 0;
    while i < |configs|
      invariant 0 <= i <= |configs|
      invariant |dutRuns| == i && |goldenRuns| == i && o == Done
      invariant wantD == dutRuns + Outputs(fd, rd, dut.driven, configs[i..], vec)
      invariant wantG == goldenRuns + Outputs(fg, rg, golden.driven, configs[i..], vec)
      invariant dut.driven == pd + Repeat(vec, i) && golden.driven == pg + Repeat(vec, i)
      invariant i == 0 ==> dut.Regs() == od && golden.Regs() == og
      invariant i > 0 ==> Reached(dut, golden, configs[i - 1], Done)
    {
      var es := configs[i];
      ghost var dd, dg := dut.driven, golden.driven;
      var dutOut, goldenOut;
      dutOut, goldenOut, o := RunConfiguration(dut, golden, es, vec);
      OutputsStep(fd, rd, dd, configs, vec, i, dutRuns, dutOut, wantD);
      OutputsStep(fg, rg, dg, configs, vec, i, goldenRuns, goldenOut, wantG);
      if o.Failed? {
        return;
      }
      HistoryAppend(pd, vec, i, dd);
      HistoryAppend(pg, vec, i, dg);
      dutRuns := dutRuns + [dutOut];
      goldenRuns := goldenRuns + [goldenOut];
      i := i + 1;
    }
    assert configs[i..] == [];
  }
}
