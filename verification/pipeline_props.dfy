/** What the front-end batch moves promise: fetch, decode, register_read
    and dispatch move whole bundles under back-pressure, keep FIFO order, and
    lose or invent nothing on the way. */
module PipelineProps {
  import opened Records
  import opened Stages

  // ---------------------------------------------------------------- fetch

  /** fetch does nothing while DE_reg holds a bundle. Otherwise it reads
      min(width, lines left) lines, numbering them with consecutive ages from
      total_instr_read, each with both register copies equal, no source
      ready and one fetch cycle; the trace is marked depleted exactly when a
      read fails, which is when fewer than `width` lines were left. */
  lemma FetchStageReads(v: Fetching, records: seq<TraceRecord>, width: nat, cycle: nat)
    requires v.pos <= |records|
    ensures var r := FetchStage(v, records, width, cycle);
      (|v.deReg| != 0 ==> r == v) &&
      (|v.deReg| == 0 ==>
        var n := r.pos - v.pos;
        v.pos <= r.pos <= |records| && n <= width &&
        (n < width <==> r.pos == |records| && |records| - v.pos < width) &&
        r.traceDepleted == (v.traceDepleted || n < width) &&
        r.totalRead == v.totalRead + n && |r.deReg| == n &&
        forall j :: 0 <= j < n ==>
          var i := r.deReg[j]; var rec := records[v.pos + j];
          i.pc == rec.pc && i.opType == rec.opType && i.age == v.totalRead + j &&
          i.dest == i.ogDest == rec.dest && i.src1 == i.ogSrc1 == rec.src1 && i.src2 == i.ogSrc2 == rec.src2 &&
          !i.src1Ready && !i.src2Ready && !i.writeBack && i.execTime == 0 &&
          i.timing.beginCycle == cycle && i.timing.feTime == 1 && i.timing.deTime == 0)
  {
    if |v.deReg| == 0 {
      var r := FetchStage(v, records, width, cycle);
      var n := Min(width, |records| - v.pos);
      assert r.deReg == Fetched(records, v.pos, n, v.totalRead, cycle);
    }
  }

  /** Registers of well-formed trace lines stay within the RMT after fetch. */
  lemma FetchKeepsRegsMapped(v: Fetching, records: seq<TraceRecord>, width: nat, cycle: nat)
    requires v.pos <= |records| && RegsMapped(v.deReg, RmtSize)
    requires forall k :: 0 <= k < |records| ==> WellFormed(records[k])
    ensures RegsMapped(FetchStage(v, records, width, cycle).deReg, RmtSize)
  {
    var r := FetchStage(v, records, width, cycle);
    if |v.deReg| == 0 {
      var n := Min(width, |records| - v.pos);
      assert r.deReg == Fetched(records, v.pos, n, v.totalRead, cycle);
      forall k | 0 <= k < |r.deReg| ensures NoReg <= r.deReg[k].dest < RmtSize {
        assert WellFormed(records[v.pos + k]);
      }
    }
  }

  // ---------------------------------------------------------------- decode

  /** decode moves the whole of DE_reg behind RN_reg, or nothing: together
      the two buffers keep their order, and the move happens exactly when
      RN_reg is empty and DE_reg is not. */
  lemma DecodeStageMoves(deReg: seq<Instruction>, rnReg: seq<Instruction>)
    ensures var (de', rn') := DecodeStage(deReg, rnReg);
      rn' + de' == rnReg + TickAll(deReg, DE) &&
      (de' == [] || rn' == rnReg) &&
      (rn' != rnReg <==> rnReg == [] && deReg != [])
  {
    var (de', rn') := DecodeStage(deReg, rnReg);
    if rnReg == [] && deReg != [] {
      assert rn' != rnReg by { assert |rn'| == |deReg|; }
    }
  }

  // ---------------------------------------------------------------- register_read

  /** register_read moves the whole of RR_reg behind an empty DI_reg, or
      nothing. What it moves keeps its order and every field but the ready
      flags; a flag already set stays set, and a clear one becomes set when
      the first ROB entry carrying the source's tag is ready or no entry
      carries it. */
  lemma RegisterReadStageMoves(rrReg: seq<Instruction>, diReg: seq<Instruction>, rob: seq<RobEntry>)
    ensures var (rr', di') := RegisterReadStage(rrReg, diReg, rob); var rr := TickAll(rrReg, RR);
      |rr'| + |di'| == |rrReg| + |diReg| &&
      (if diReg == [] && rrReg != []
       then rr' == [] && |di'| == |rr| &&
            forall k :: 0 <= k < |rr| ==>
              di'[k].(src1Ready := rr[k].src1Ready, src2Ready := rr[k].src2Ready) == rr[k] &&
              (rr[k].src1Ready ==> di'[k].src1Ready) && (rr[k].src2Ready ==> di'[k].src2Ready) &&
              di'[k].src1Ready == (rr[k].src1Ready || match RobIndexOf(rob, rr[k].src1) case None => true case Some(j) => rob[j].ready) &&
              di'[k].src2Ready == (rr[k].src2Ready || match RobIndexOf(rob, rr[k].src2) case None => true case Some(j) => rob[j].ready)
       else rr' == rr && di' == diReg)
  {
    var (rr', di') := RegisterReadStage(rrReg, diReg, rob);
    var rr := TickAll(rrReg, RR);
    if diReg == [] && rrReg != [] {
      forall k | 0 <= k < |rr|
        ensures di'[k].src1Ready == (rr[k].src1Ready || match RobIndexOf(rob, rr[k].src1) case None => true case Some(j) => rob[j].ready)
        ensures di'[k].src2Ready == (rr[k].src2Ready || match RobIndexOf(rob, rr[k].src2) case None => true case Some(j) => rob[j].ready)
      {
        TagReadyIndex(rob, rr[k].src1);
        TagReadyIndex(rob, rr[k].src2);
      }
    }
  }

  // ---------------------------------------------------------------- dispatch

  /** dispatch moves the whole of DI_reg behind IQ_reg exactly when IQ_reg
      has room for all of it, and otherwise nothing; together the two
      buffers keep their order, and IQ_reg never grows past `iqSize`. */
  lemma DispatchStageMoves(diReg: seq<Instruction>, iqReg: seq<Instruction>, iqSize: nat)
    ensures var (di', iq') := DispatchStage(diReg, iqReg, iqSize);
      iq' + di' == iqReg + TickAll(diReg, DI) &&
      (di' == [] || iq' == iqReg) &&
      (iq' != iqReg <==> diReg != [] && |iqReg| + |diReg| <= iqSize) &&
      (|iqReg| <= iqSize ==> |iq'| <= iqSize)
  {
    var (di', iq') := DispatchStage(diReg, iqReg, iqSize);
    if diReg != [] && |iqReg| + |diReg| <= iqSize {
      assert iq' != iqReg by { assert |iq'| == |iqReg| + |diReg|; }
    }
  }

  // ---------------------------------------------------------------- advance_cycle

  /** advance_cycle counts the cycle and reports whether anything is left:
      it says stop exactly when the trace is depleted and every buffer and
      the ROB are empty. */
  lemma AdvanceCycleStops(s: State)
    ensures var (s', more) := AdvanceCycle(s);
      s'.cycleCount == s.cycleCount + 1 && s' == s.(cycleCount := s'.cycleCount) &&
      (!more <==> s.traceDepleted && |s.deReg| + |s.rnReg| + |s.rrReg| + |s.diReg| + |s.iqReg| +
                                     |s.executeList| + |s.wbReg| + |s.rob| == 0)
  {
  }
}
