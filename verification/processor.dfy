/** The simulator's Processor: eight stage buffers, the ROB, the RMT and the
    counters, updated in place by one method per pipeline stage. Each method
    is proved to leave exactly the state its Stages function describes. */
module Proc {
  import opened Records
  import opened Seqs
  import Stages

  /** The trace file: its decoded lines and the position of the next read. */
  class TraceFile {
    const records: seq<TraceRecord>
    var pos: nat

    ghost predicate Valid()
      reads this
    {
      pos <= |records|
    }

    constructor (records: seq<TraceRecord>)
      ensures Valid() && this.records == records && pos == 0
    {
      this.records := records;
      pos := 0;
    }

    /** A read that yields the next line, or None at the end of the trace. */
    method Read() returns (r: Option<TraceRecord>)
      requires Valid()
      modifies this
      ensures Valid()
      ensures old(pos) < |records| ==> r == Some(records[old(pos)]) && pos == old(pos) + 1
      ensures old(pos) == |records| ==> r == None && pos == old(pos)
    {
      if pos < |records| {
        r := Some(records[pos]);
        pos := pos + 1;
      } else {
        r := None;
      }
    }
  }

  class Processor {
    var robSize: nat
    var iqSize: nat
    var width: nat
    var cycleCount: nat
    var traceDepleted: bool
    var robTail: nat
    var totalRead: nat

    var deReg: seq<Instruction>
    var rnReg: seq<Instruction>
    var rrReg: seq<Instruction>
    var diReg: seq<Instruction>
    var iqReg: seq<Instruction>
    var executeList: seq<Instruction>
    var wbReg: seq<Instruction>
    var rtReg: seq<Instruction>
    var rob: seq<RobEntry>
    var rmt: seq<RmtEntry>

    /** The instructions print_timing reports, in the order it reports them. */
    var retiredLog: seq<Instruction>

    function Abs(): Stages.State
      reads this
    {
      Stages.State(robSize, iqSize, width, cycleCount, traceDepleted, robTail, totalRead,
                   deReg, rnReg, rrReg, diReg, iqReg, executeList, wbReg, rtReg,
                   rob, rmt, retiredLog)
    }

    constructor ()
      ensures Abs() == Stages.FreshState()
    {
      robSize, iqSize, width := 0, 0, 0;
      cycleCount, traceDepleted, robTail, totalRead := 0, false, 0, 0;
      deReg, rnReg, rrReg, diReg := [], [], [], [];
      iqReg, executeList, wbReg, rtReg := [], [], [], [];
      rob, rmt, retiredLog := [], [], [];
    }

    method ConfigProc(ipRobSize: nat, ipIqSize: nat, ipWidth: nat)
      modifies this`robSize, this`iqSize, this`width, this`rmt
      ensures robSize == ipRobSize && iqSize == ipIqSize && width == ipWidth
      ensures rmt == Stages.Config(old(Abs()), ipRobSize, ipIqSize, ipWidth).rmt
    {
      robSize := ipRobSize;
      iqSize := ipIqSize;
      width := ipWidth;
      AppendInvalidMappings();
    }

    /** config_proc's loop: 67 invalid RMT entries pushed at the back. */
    method AppendInvalidMappings()
      modifies this`rmt
      ensures rmt == old(rmt) + seq(RmtSize, _ => RmtEntry(false, 0))
    {
      var initEntry := RmtEntry(false, 0);
      var i := 0;
      while i < RmtSize
        invariant 0 <= i <= RmtSize
        invariant rmt == old(rmt) + seq(i, _ => initEntry)
      {
        rmt := rmt + [initEntry];
        i := i + 1;
      }
    }

    // ------------------------------------------------------------ retire

    /** The fields retire changes. */
    function RetireView(): Stages.Retirement
      reads this
    {
      Stages.Retirement(rtReg, rob, rmt, retiredLog)
    }

    /** The search of RT_reg for the retiring tag, with print_timing. */
    method ReportRetired(tag: nat)
      modifies this`rtReg, this`retiredLog
      ensures (rtReg, retiredLog) == Stages.ReportRetired(old(rtReg), old(retiredLog), tag)
    {
      var k := 0;
      while k < |rtReg|
        invariant 0 <= k <= |rtReg|
        invariant forall j :: 0 <= j < k ==> rtReg[j].robTag != tag
      {
        if rtReg[k].robTag == tag {
          assert Stages.IndexOfTag(rtReg, tag) == Some(k);
          retiredLog := retiredLog + [rtReg[k]];
          rtReg := rtReg[..k] + rtReg[k + 1..];
          return;
        }
        k := k + 1;
      }
    }

    /** Commit of the ROB head (one round of retire's loop). */
    method CommitHead()
      requires rob != [] && NoReg <= rob[0].dest < |rmt|
      modifies this`rtReg, this`retiredLog, this`rmt, this`rob
      ensures RetireView() == Stages.RetireHead(old(RetireView()))
    {
      var head := rob[0];
      ReportRetired(head.tag);
      if head.dest != NoReg {
        var entry := rmt[head.dest];
        if entry.valid && head.tag == entry.robTag {
          rmt := rmt[head.dest := entry.(valid := false)];
        }
      }
      rob := rob[1..];
    }

    /** retire's loop: up to `width` ready heads committed, in ROB order. */
    method CommitReady()
      requires Stages.DestsMapped(rob, |rmt|)
      modifies this`rtReg, this`retiredLog, this`rmt, this`rob
      ensures RetireView() == Stages.RetireRounds(old(RetireView()), width)
    {
      ghost var left: nat := width;
      var i := 0;
      while i < width
        invariant 0 <= i <= width && left == width - i
        invariant Stages.DestsMapped(rob, |rmt|)
        invariant Stages.RetireRounds(RetireView(), left) == Stages.RetireRounds(old(RetireView()), width)
      {
        if rob == [] {
          break;
        }
        if rob[0].ready {
          ghost var before := RetireView();
          CommitHead();
          assert Stages.RetireRounds(before, left) == Stages.RetireRounds(RetireView(), left - 1);
        } else {
          break;
        }
        left := left - 1;
        i := i + 1;
      }
    }

    method Retire()
      requires Stages.DestsMapped(rob, |rmt|)
      modifies this`rtReg, this`retiredLog, this`rmt, this`rob
      ensures RetireView() == Stages.RetireStage(old(RetireView()), width)
    {
      rtReg := TickBuffer(rtReg, RT);
      CommitReady();
    }

    // ------------------------------------------------------------ write_back

    /** Sets `ready` on the first ROB entry carrying `tag`. */
    method MarkRobReady(tag: nat)
      modifies this`rob
      ensures rob == Stages.MarkReady(old(rob), tag)
    {
      var j := 0;
      while j < |rob|
        invariant 0 <= j <= |rob|
        invariant forall k :: 0 <= k < j ==> rob[k].tag != tag
      {
        if rob[j].tag == tag {
          Stages.RobIndexOfFirst(rob, tag);
          rob := rob[j := rob[j].(ready := true)];
          return;
        }
        j := j + 1;
      }
      Stages.RobIndexOfFirst(rob, tag);
    }

    /** write_back's loop: every WB_reg instruction marks its ROB entry ready
        and moves to RT_reg. */
    method DrainWriteBack()
      modifies this`wbReg, this`rtReg, this`rob
      ensures rob == Stages.MarkAllReady(old(rob), old(wbReg))
      ensures rtReg == old(rtReg) + old(wbReg) && wbReg == []
    {
      ghost var wb0, rt0 := wbReg, rtReg;
      var temp := |wbReg|;
      var i := 0;
      while i < temp
        invariant 0 <= i <= temp == |wb0|
        invariant wbReg == wb0[i..]
        invariant rtReg == rt0 + wb0[..i]
        invariant Stages.MarkAllReady(rob, wbReg) == Stages.MarkAllReady(old(rob), wb0)
      {
        var current := wbReg[0];
        MarkRobReady(current.robTag);
        rtReg := rtReg + [current];
        wbReg := wbReg[1..];
        assert wb0[..i + 1] == wb0[..i] + [current];
        i := i + 1;
      }
      assert wb0[..i] == wb0;
    }

    /** The fields write_back changes. */
    function CompletionView(): Stages.Completion
      reads this
    {
      Stages.Completion(wbReg, rtReg, rob)
    }

    method WriteBack()
      modifies this`wbReg, this`rtReg, this`rob
      ensures CompletionView() == Stages.WriteBackStage(old(CompletionView()))
    {
      wbReg := TickBuffer(wbReg, WB);
      DrainWriteBack();
    }

    // ------------------------------------------------------------ execute

    /** The tag broadcast of a completing producer to IQ_reg, DI_reg and RR_reg. */
    method Broadcast(producerTag: int)
      modifies this`iqReg, this`diReg, this`rrReg
      ensures iqReg == Stages.WakeAll(old(iqReg), {producerTag})
      ensures diReg == Stages.WakeAll(old(diReg), {producerTag})
      ensures rrReg == Stages.WakeAll(old(rrReg), {producerTag})
    {
      iqReg := WakeBuffer(iqReg, producerTag);
      diReg := WakeBuffer(diReg, producerTag);
      rrReg := WakeBuffer(rrReg, producerTag);
    }

    /** One round of execute's loop: instruction `i` executes one more cycle;
        once its latency is reached it is flagged, copied to WB_reg and its
        destination tag is broadcast. */
    method ExecuteOne(i: nat)
      requires i < |executeList|
      modifies this`executeList, this`wbReg, this`iqReg, this`diReg, this`rrReg
      ensures executeList == old(executeList)[i := Stages.Advance(old(executeList)[i])]
      ensures var a := Stages.Advance(old(executeList)[i]);
        wbReg == old(wbReg) + (if Stages.Completes(a) then [a] else []) &&
        iqReg == Stages.Broadcast(old(iqReg), a) &&
        diReg == Stages.Broadcast(old(diReg), a) &&
        rrReg == Stages.Broadcast(old(rrReg), a)
    {
      executeList := executeList[i := executeList[i].(execTime := executeList[i].execTime + 1)];

      var completed := false;
      if executeList[i].opType == 0 && executeList[i].execTime >= 1 {
        completed := true;
      } else if executeList[i].opType == 1 && executeList[i].execTime >= 2 {
        completed := true;
      } else if executeList[i].opType == 2 && executeList[i].execTime >= 5 {
        completed := true;
      }

      if completed {
        executeList := executeList[i := executeList[i].(writeBack := true)];
        wbReg := wbReg + [executeList[i]];
        if executeList[i].dest != NoReg {
          Broadcast(executeList[i].dest);
        }
      }
    }

    /** One round of execute's first loop, at position |done|. */
    method AdvanceRound(i: nat, ghost done: seq<Instruction>, ghost v0: Stages.Execution)
      requires AdvancedPrefix(ExecutionView(), v0, done) && i == |done| < |v0.executeList|
      modifies this`executeList, this`wbReg, this`iqReg, this`diReg, this`rrReg
      ensures AdvancedPrefix(ExecutionView(), v0, done + [Stages.Advance(v0.executeList[i])])
    {
      ghost var v := ExecutionView();
      ExecuteOne(i);
      AdvancedStep(v, ExecutionView(), v0, done);
    }

    /** execute's first loop, over the whole execute_list. */
    method AdvanceExecuting()
      modifies this`executeList, this`wbReg, this`iqReg, this`diReg, this`rrReg
      ensures executeList == Stages.AdvanceAll(old(executeList))
      ensures var m := Stages.AdvanceAll(old(executeList));
        wbReg == old(wbReg) + Filter(m, Stages.Completes) &&
        iqReg == Stages.BroadcastAll(old(iqReg), m) &&
        diReg == Stages.BroadcastAll(old(diReg), m) &&
        rrReg == Stages.BroadcastAll(old(rrReg), m)
    {
      ghost var v0 := ExecutionView();
      ghost var done: seq<Instruction> := [];
      var i := 0;
      while i < |executeList|
        invariant i == |done| && AdvancedPrefix(ExecutionView(), v0, done)
      {
        AdvanceRound(i, done, v0);
        done := done + [Stages.Advance(v0.executeList[i])];
        i := i + 1;
      }
      assert done == Stages.AdvanceAll(v0.executeList);
    }

    /** execute's second loop: the flagged instructions are erased in place. */
    method RemoveCompleted()
      modifies this`executeList
      ensures executeList == Filter(old(executeList), Stages.Pending)
    {
      ghost var x0 := executeList;
      ghost var j := 0;
      var i := 0;
      while i < |executeList|
        invariant 0 <= i <= |executeList| && 0 <= j <= |x0|
        invariant |executeList| - i == |x0| - j
        invariant executeList[..i] == Filter(x0[..j], Stages.Pending)
        invariant executeList[i..] == x0[j..]
        decreases |executeList| - i
      {
        assert executeList[i] == x0[j];
        FilterSnoc(x0[..j], x0[j], Stages.Pending);
        assert x0[..j + 1] == x0[..j] + [x0[j]];
        if executeList[i].writeBack {
          executeList := executeList[..i] + executeList[i + 1..];
        } else {
          i := i + 1;
        }
        j := j + 1;
      }
      assert x0[..j] == x0;
    }

    /** The fields execute changes. */
    function ExecutionView(): Stages.Execution
      reads this
    {
      Stages.Execution(executeList, wbReg, iqReg, diReg, rrReg)
    }

    /** execute's two loops. */
    method ExecuteBuffers()
      modifies this`executeList, this`wbReg, this`iqReg, this`diReg, this`rrReg
      ensures ExecutionView() == Stages.ExecuteBuffers(old(ExecutionView()))
    {
      AdvanceExecuting();
      RemoveCompleted();
    }

    method Execute()
      modifies this`executeList, this`wbReg, this`iqReg, this`diReg, this`rrReg
      ensures ExecutionView() == Stages.ExecuteStage(old(ExecutionView()))
    {
      executeList := TickBuffer(executeList, EX);
      ExecuteBuffers();
    }

    // ------------------------------------------------------------ issue

    /** One selection round's scan: the oldest instruction of IQ_reg whose
        sources are both ready (the first one on an age tie). */
    method SelectOldestReady() returns (oldestReadyFound: bool, oldestIndex: int)
      ensures oldestReadyFound <==> oldestIndex != -1
      ensures oldestReadyFound ==> 0 <= oldestIndex < |iqReg| && Stages.OldestReady(iqReg) == Some(oldestIndex)
      ensures !oldestReadyFound <==> Stages.OldestReady(iqReg) == None
    {
      oldestReadyFound := false;
      oldestIndex := -1;
      var i := 0;
      while i < |iqReg|
        invariant 0 <= i <= |iqReg|
        invariant oldestReadyFound <==> oldestIndex != -1
        invariant oldestReadyFound ==> 0 <= oldestIndex < i && Stages.OldestReadyIn(iqReg, i) == Some(oldestIndex)
        invariant !oldestReadyFound ==> Stages.OldestReadyIn(iqReg, i) == None
      {
        if iqReg[i].src1Ready && iqReg[i].src2Ready {
          if oldestIndex == -1 || iqReg[i].age < iqReg[oldestIndex].age {
            oldestIndex := i;
            oldestReadyFound := true;
          }
        }
        i := i + 1;
      }
    }

    /** issue's loop: `width` selection rounds. */
    method IssueBundle()
      modifies this`iqReg, this`executeList
      ensures (iqReg, executeList) == Stages.IssueRounds(old(iqReg), old(executeList), width)
    {
      ghost var left: nat := width;
      var j := 0;
      while j < width
        invariant 0 <= j <= width && left == width - j
        invariant Stages.IssueRounds(iqReg, executeList, left) == Stages.IssueRounds(old(iqReg), old(executeList), width)
      {
        var oldestReadyFound, oldestIndex := SelectOldestReady();
        if oldestReadyFound {
          executeList := executeList + [iqReg[oldestIndex]];
          iqReg := iqReg[..oldestIndex] + iqReg[oldestIndex + 1..];
        }
        left := left - 1;
        j := j + 1;
      }
    }

    method Issue()
      modifies this`iqReg, this`executeList
      ensures (iqReg, executeList) == Stages.IssueStage(old(iqReg), old(executeList), width)
    {
      iqReg := TickBuffer(iqReg, IS);
      if |iqReg| == 0 {
        return;
      }
      IssueBundle();
    }

    // ------------------------------------------------------------ dispatch

    /** dispatch's loop: the whole of DI_reg, front first, to IQ_reg. */
    method DispatchBundle()
      modifies this`iqReg, this`diReg
      ensures iqReg == old(iqReg) + old(diReg) && diReg == []
    {
      while |diReg| != 0
        invariant iqReg + diReg == old(iqReg) + old(diReg)
        decreases |diReg|
      {
        var current := diReg[0];
        iqReg := iqReg + [current];
        diReg := diReg[1..];
      }
    }

    method Dispatch()
      modifies this`diReg, this`iqReg
      ensures (diReg, iqReg) == Stages.DispatchStage(old(diReg), old(iqReg), iqSize)
    {
      diReg := TickBuffer(diReg, DI);

      if iqSize - |iqReg| < |diReg| {
        return;
      }
      DispatchBundle();
    }

    // ------------------------------------------------------------ register_read

    /** The ROB scan of rename and register_read: whether some entry carries
        `tag`, and if so the ready flag of the first one. */
    method FindInRob(tag: int) returns (tagFound: bool, tagReady: bool)
      ensures tagFound <==> exists k :: 0 <= k < |rob| && rob[k].tag == tag
      ensures (!tagFound || tagReady) == Stages.TagReady(rob, tag)
    {
      tagFound, tagReady := false, false;
      var j := 0;
      while j < |rob|
        invariant 0 <= j <= |rob|
        invariant forall k :: 0 <= k < j ==> rob[k].tag != tag
        invariant Stages.ReadyFrom(rob, tag, j, true) == Stages.TagReady(rob, tag)
      {
        if rob[j].tag == tag {
          tagFound := true;
          tagReady := rob[j].ready;
          return;
        }
        j := j + 1;
      }
    }

    /** The re-check of one instruction's not-ready sources against the ROB. */
    method ReadSources(instr: Instruction) returns (current: Instruction)
      ensures current == Stages.ReadOperands(instr, rob)
    {
      current := instr;
      if !current.src1Ready {
        var tagFound, tagReady := FindInRob(current.src1);
        if tagFound {
          if tagReady { current := current.(src1Ready := true); }
        } else {
          current := current.(src1Ready := true);
        }
      }
      if !current.src2Ready {
        var tagFound, tagReady := FindInRob(current.src2);
        if tagFound {
          if tagReady { current := current.(src2Ready := true); }
        } else {
          current := current.(src2Ready := true);
        }
      }
    }

    /** register_read's loop: all of RR_reg, front first, to DI_reg. */
    method ReadBundle()
      modifies this`rrReg, this`diReg
      ensures diReg == old(diReg) + Stages.ReadAll(old(rrReg), rob) && rrReg == []
    {
      ghost var rr0, di0 := rrReg, diReg;
      ghost var done := 0;
      while |rrReg| != 0
        invariant 0 <= done <= |rr0| && rrReg == rr0[done..]
        invariant diReg == di0 + Stages.ReadAll(rr0[..done], rob)
        decreases |rrReg|
      {
        var current := ReadSources(rrReg[0]);
        assert rr0[..done + 1] == rr0[..done] + [rrReg[0]];
        diReg := diReg + [current];
        rrReg := rrReg[1..];
        done := done + 1;
      }
      assert rr0[..done] == rr0;
    }

    method RegisterRead()
      modifies this`rrReg, this`diReg
      ensures (rrReg, diReg) == Stages.RegisterReadStage(old(rrReg), old(diReg), rob)
    {
      rrReg := TickBuffer(rrReg, RR);
      if |diReg| != 0 || |rrReg| == 0 {
        return;
      }
      ReadBundle();
    }

    // ------------------------------------------------------------ rename

    /** The fields rename changes. */
    function RenameView(): Stages.Renaming
      reads this
    {
      Stages.Renaming(rnReg, rrReg, rob, rmt, robTail)
    }

    /** Rename of one source operand, after the new ROB entry has been
        pushed: its new value and ready flag. */
    method RenameSource(src: int) returns (newSrc: int, ready: bool)
      requires NoReg <= src < |rmt|
      ensures newSrc == Stages.RenamedSource(src, rmt)
      ensures ready == (0 <= src && rmt[src].valid ==> Stages.TagReady(rob, rmt[src].robTag))
    {
      newSrc := src;
      if src != NoReg {
        if rmt[src].valid {
          newSrc := rmt[src].robTag;
          ready := false;
          var tagFound, tagReady := FindInRob(newSrc);
          if tagFound && tagReady {
            ready := true;
          } else if !tagFound {
            ready := true;
          }
        } else {
          ready := true;
        }
      } else {
        ready := true;
      }
    }

    /** Tags the instruction with ROB_tail and renames both sources, once
        its ROB entry `entry` has been pushed. */
    method RenameOperands(instr: Instruction, ghost entry: RobEntry) returns (current: Instruction)
      requires NoReg <= instr.src1 < |rmt| && NoReg <= instr.src2 < |rmt|
      requires rob != [] && rob[|rob| - 1] == entry && !entry.ready && entry.tag == robTail
      ensures current == Stages.RenamedSources(instr, rmt, rob[..|rob| - 1], robTail)
    {
      ghost var rob0 := rob[..|rob| - 1];
      assert rob == rob0 + [entry];
      current := instr.(robTag := robTail);
      var src1, ready1 := RenameSource(current.src1);
      if current.src1 != NoReg && rmt[current.src1].valid {
        Stages.TagReadyPush(rob0, entry, rmt[current.src1].robTag);
      }
      current := current.(src1 := src1, src1Ready := ready1);
      var src2, ready2 := RenameSource(current.src2);
      if current.src2 != NoReg && rmt[current.src2].valid {
        Stages.TagReadyPush(rob0, entry, rmt[current.src2].robTag);
      }
      current := current.(src2 := src2, src2Ready := ready2);
    }

    /** Rename of the front instruction of RN_reg (one round of rename's loop). */
    method RenameFront()
      requires rnReg != []
      requires NoReg <= rnReg[0].dest < |rmt| && NoReg <= rnReg[0].src1 < |rmt| && NoReg <= rnReg[0].src2 < |rmt|
      modifies this`rnReg, this`rob, this`rmt, this`rrReg, this`robTail
      ensures RenameView() == Stages.RenameOne(old(RenameView()))
    {
      var current := rnReg[0];
      rnReg := rnReg[1..];
      var entry := RobEntry(current.pc, false, current.dest, robTail);
      rob := rob + [entry];
      current := RenameOperands(current, entry);
      if current.dest != NoReg {
        rmt := rmt[current.dest := RmtEntry(true, robTail)];
        current := current.(dest := robTail);
      }
      rrReg := rrReg + [current];
      robTail := robTail + 1;
    }

    /** rename's loop: up to `width` instructions from RN_reg to RR_reg. */
    method RenameBundle()
      requires Stages.RegsMapped(rnReg, |rmt|)
      modifies this`rnReg, this`rob, this`rmt, this`rrReg, this`robTail
      ensures RenameView() == Stages.RenameRounds(old(RenameView()), width)
    {
      ghost var left: nat := width;
      var count := 0;
      while |rnReg| != 0 && count < width
        invariant 0 <= count <= width && left == width - count
        invariant Stages.RegsMapped(rnReg, |rmt|)
        invariant Stages.RenameRounds(RenameView(), left) == Stages.RenameRounds(old(RenameView()), width)
      {
        ghost var before := RenameView();
        RenameFront();
        assert Stages.RenameRounds(before, left) == Stages.RenameFrontThenRounds(before, left);
        left := left - 1;
        count := count + 1;
      }
    }

    method Rename()
      requires Stages.RegsMapped(rnReg, |rmt|)
      modifies this`rnReg, this`rob, this`rmt, this`rrReg, this`robTail
      ensures RenameView() == Stages.RenameStage(old(RenameView()), robSize, width)
    {
      rnReg := TickBuffer(rnReg, RN);
      if |rrReg| != 0 || robSize - |rob| < width || |rnReg| == 0 {
        return;
      }
      RenameBundle();
    }

    // ------------------------------------------------------------ decode

    /** decode's loop: the whole of DE_reg, front first, to RN_reg. */
    method DecodeBundle()
      modifies this`rnReg, this`deReg
      ensures rnReg == old(rnReg) + old(deReg) && deReg == []
    {
      while |deReg| != 0
        invariant rnReg + deReg == old(rnReg) + old(deReg)
        decreases |deReg|
      {
        rnReg := rnReg + [deReg[0]];
        deReg := deReg[1..];
      }
    }

    method Decode()
      modifies this`deReg, this`rnReg
      ensures (deReg, rnReg) == Stages.DecodeStage(old(deReg), old(rnReg))
    {
      deReg := TickBuffer(deReg, DE);

      if |rnReg| != 0 || |deReg| == 0 {
        return;
      }
      DecodeBundle();
    }

    // ------------------------------------------------------------ fetch

    /** fetch's loop: up to `width` trace lines read into DE_reg. */
    method FetchBundle(fp: TraceFile)
      requires fp.Valid()
      modifies this`deReg, this`totalRead, this`traceDepleted, fp
      ensures fp.Valid()
      ensures var n := Min(width, |fp.records| - old(fp.pos));
        fp.pos == old(fp.pos) + n &&
        deReg == old(deReg) + Stages.Fetched(fp.records, old(fp.pos), n, old(totalRead), cycleCount) &&
        totalRead == old(totalRead) + n &&
        traceDepleted == (old(traceDepleted) || n < width)
    {
      ghost var pos0, de0, read0 := fp.pos, deReg, totalRead;
      var i := 0;
      while i < width
        invariant 0 <= i <= width && i <= |fp.records| - pos0
        invariant fp.Valid() && fp.pos == pos0 + i
        invariant deReg == de0 + Stages.Fetched(fp.records, pos0, i, read0, cycleCount)
        invariant totalRead == read0 + i && traceDepleted == old(traceDepleted)
      {
        var rec := fp.Read();
        if rec.Some? {
          var current := NewInstruction(rec.value, totalRead, cycleCount);
          deReg := deReg + [current];
          totalRead := totalRead + 1;
          assert Stages.Fetched(fp.records, pos0, i + 1, read0, cycleCount) ==
                 Stages.Fetched(fp.records, pos0, i, read0, cycleCount) + [current];
        } else {
          traceDepleted := true;
          break;
        }
        i := i + 1;
      }
    }

    method Fetch(fp: TraceFile)
      requires fp.Valid()
      modifies this`deReg, this`totalRead, this`traceDepleted, fp
      ensures fp.Valid()
      ensures Stages.Fetching(deReg, totalRead, traceDepleted, fp.pos) ==
              Stages.FetchStage(Stages.Fetching(old(deReg), old(totalRead), old(traceDepleted), old(fp.pos)),
                                fp.records, width, cycleCount)
    {
      if |deReg| != 0 {
        return;
      }
      FetchBundle(fp);
    }

    // ------------------------------------------------------------ advance_cycle

    method AdvanceCycle() returns (more: bool)
      modifies this`cycleCount
      ensures cycleCount == old(cycleCount) + 1
      ensures more == !Stages.Drained(old(Abs()))
    {
      cycleCount := cycleCount + 1;
      if traceDepleted && |deReg| == 0 && |rnReg| == 0 && |rrReg| == 0 && |diReg| == 0 &&
         |iqReg| == 0 && |executeList| == 0 && |wbReg| == 0 && |rob| == 0 {
        return false;
      }
      return true;
    }
  }

  /** The buffers of execute's first loop, `v`, once the instructions `done`
      (the first |done| of `v0.executeList`, advanced) have had their round. */
  ghost predicate AdvancedPrefix(v: Stages.Execution, v0: Stages.Execution, done: seq<Instruction>)
  {
    |done| <= |v0.executeList| == |v.executeList| &&
    (forall k :: 0 <= k < |done| ==> done[k] == Stages.Advance(v0.executeList[k]) && v.executeList[k] == done[k]) &&
    (forall k :: |done| <= k < |v0.executeList| ==> v.executeList[k] == v0.executeList[k]) &&
    v.wbReg == v0.wbReg + Filter(done, Stages.Completes) &&
    v.iqReg == Stages.BroadcastAll(v0.iqReg, done) &&
    v.diReg == Stages.BroadcastAll(v0.diReg, done) &&
    v.rrReg == Stages.BroadcastAll(v0.rrReg, done)
  }

  /** The buffers after one more round of execute's first loop. */
  lemma AdvancedStep(v: Stages.Execution, w: Stages.Execution, v0: Stages.Execution, done: seq<Instruction>)
    requires AdvancedPrefix(v, v0, done) && |done| < |v0.executeList|
    requires var i := |done|; var a := Stages.Advance(v.executeList[i]);
      w.executeList == v.executeList[i := a] &&
      w.wbReg == v.wbReg + (if Stages.Completes(a) then [a] else []) &&
      w.iqReg == Stages.Broadcast(v.iqReg, a) &&
      w.diReg == Stages.Broadcast(v.diReg, a) &&
      w.rrReg == Stages.Broadcast(v.rrReg, a)
    ensures AdvancedPrefix(w, v0, done + [Stages.Advance(v0.executeList[|done|])])
  {
    var a := Stages.Advance(v0.executeList[|done|]);
    FilterSnoc(done, a, Stages.Completes);
    Stages.BroadcastAllSnoc(v0.iqReg, done, a);
    Stages.BroadcastAllSnoc(v0.diReg, done, a);
    Stages.BroadcastAllSnoc(v0.rrReg, done, a);
    var next := done + [a];
    forall k | 0 <= k < |next|
      ensures next[k] == Stages.Advance(v0.executeList[k]) && w.executeList[k] == next[k]
    {
      if k < |done| {
        assert next[k] == done[k];
      }
    }
  }

  /** The residency-counter loop that opens every stage but fetch. */
  method TickBuffer(buf: seq<Instruction>, st: Stage) returns (r: seq<Instruction>)
    ensures r == TickAll(buf, st)
  {
    r := buf;
    var i := 0;
    while i < |r|
      invariant 0 <= i <= |r| == |buf|
      invariant forall k :: 0 <= k < i ==> r[k] == Bumped(buf[k], st)
      invariant forall k :: i <= k < |r| ==> r[k] == buf[k]
    {
      r := r[i := Bumped(r[i], st)];
      i := i + 1;
    }
  }

  /** One of execute's wakeup loops: sources equal to the producer's tag become ready. */
  method WakeBuffer(buf: seq<Instruction>, producerTag: int) returns (r: seq<Instruction>)
    ensures r == Stages.WakeAll(buf, {producerTag})
  {
    r := buf;
    var k := 0;
    while k < |r|
      invariant 0 <= k <= |r| == |buf|
      invariant forall j :: 0 <= j < k ==> r[j] == Stages.Wake(buf[j], {producerTag})
      invariant forall j :: k <= j < |r| ==> r[j] == buf[j]
    {
      if r[k].src1 == producerTag { r := r[k := r[k].(src1Ready := true)]; }
      if r[k].src2 == producerTag { r := r[k := r[k].(src2Ready := true)]; }
      k := k + 1;
    }
  }
}
