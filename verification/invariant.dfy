/** The state invariant every simulated cycle keeps: the ROB and the issue
    queue stay within their configured sizes, ROB tags increase from head to
    tail and stay below ROB_tail, the RMT keeps its 67 entries and maps only
    to tags already handed out, every register number still to be renamed or
    freed indexes the RMT, no instruction before execute's end is flagged
    for write-back, every renamed source that is not ready holds a ROB tag,
    and the bookkeeping between instructions and ROB entries holds: each
    waiting ROB entry is carried by exactly one instruction still to write
    back, each ready one by exactly one instruction in RT_reg, ages double as
    tags, DE_reg and RN_reg hold the next ages, and the log of retired
    instructions ascends and precedes the ROB. */
module Invariant {
  import opened Records
  import opened Seqs
  import opened Stages
  import opened Tracking
  import opened RetireProps
  import opened CompleteProps
  import opened IssueProps
  import opened RenameProps
  import opened PipelineProps
  import opened TrackingProps

  predicate Inv(s: State)
  {
    |s.rmt| == RmtSize &&
    |s.rob| <= s.robSize && |s.iqReg| <= s.iqSize &&
    TagsAscending(s.rob) && TagsBelow(s.rob, s.robTail) &&
    DestsMapped(s.rob, RmtSize) &&
    RegsMapped(s.deReg, RmtSize) && RegsMapped(s.rnReg, RmtSize) &&
    RmtBelow(s.rmt, s.robTail) &&
    NoneFlagged(s.deReg) && NoneFlagged(s.rnReg) && NoneFlagged(s.rrReg) &&
    NoneFlagged(s.diReg) && NoneFlagged(s.iqReg) && NoneFlagged(s.executeList) &&
    SourcesTagged(s.rrReg, s.robTail) && SourcesTagged(s.diReg, s.robTail) &&
    SourcesTagged(s.iqReg, s.robTail) && SourcesTagged(s.executeList, s.robTail) &&
    Tracked(s)
  }

  // ---------------------------------------------------------------- per-instruction updates

  /** A residency tick changes neither the flags nor the sources. */
  lemma TickKeeps(buf: seq<Instruction>, st: Stage, tail: nat)
    ensures NoneFlagged(buf) ==> NoneFlagged(TickAll(buf, st))
    ensures SourcesTagged(buf, tail) ==> SourcesTagged(TickAll(buf, st), tail)
  {
    forall x | x in TickAll(buf, st)
      ensures (NoneFlagged(buf) ==> !x.writeBack) && (SourcesTagged(buf, tail) ==> Waiting(x, tail))
    {
      var k :| 0 <= k < |buf| && TickAll(buf, st)[k] == x;
      assert buf[k] in buf;
    }
  }

  /** A wakeup only sets ready flags. */
  lemma WakeKeeps(buf: seq<Instruction>, tags: set<int>, tail: nat)
    requires NoneFlagged(buf) && SourcesTagged(buf, tail)
    ensures NoneFlagged(WakeAll(buf, tags)) && SourcesTagged(WakeAll(buf, tags), tail)
  {
    forall x | x in WakeAll(buf, tags) ensures !x.writeBack && Waiting(x, tail) {
      var k :| 0 <= k < |buf| && WakeAll(buf, tags)[k] == x;
      assert buf[k] in buf;
    }
  }

  /** register_read's re-check only sets ready flags. */
  lemma ReadKeeps(buf: seq<Instruction>, rob: seq<RobEntry>, tail: nat)
    requires NoneFlagged(buf) && SourcesTagged(buf, tail)
    ensures NoneFlagged(ReadAll(buf, rob)) && SourcesTagged(ReadAll(buf, rob), tail)
  {
    forall x | x in ReadAll(buf, rob) ensures !x.writeBack && Waiting(x, tail) {
      var k :| 0 <= k < |buf| && ReadAll(buf, rob)[k] == x;
      assert buf[k] in buf;
    }
  }

  /** One more execute cycle changes neither the sources nor their flags. */
  lemma AdvanceKeeps(buf: seq<Instruction>, tail: nat)
    requires SourcesTagged(buf, tail)
    ensures SourcesTagged(AdvanceAll(buf), tail)
  {
    forall x | x in AdvanceAll(buf) ensures Waiting(x, tail) {
      var k :| 0 <= k < |buf| && AdvanceAll(buf)[k] == x;
      assert buf[k] in buf;
    }
  }

  /** What is split off a buffer keeps the per-instruction facts. */
  lemma PartKeeps(buf: seq<Instruction>, part: seq<Instruction>, other: multiset<Instruction>, tail: nat)
    requires multiset(part) + other == multiset(buf)
    requires NoneFlagged(buf) && SourcesTagged(buf, tail)
    ensures NoneFlagged(part) && SourcesTagged(part, tail)
  {
    forall x | x in part ensures !x.writeBack && Waiting(x, tail) {
      SubMember(buf, part, other, x);
    }
  }

  /** A default-constructed processor configured by config_proc satisfies
      the invariant, with empty buffers and counters at zero. */
  lemma ConfigEstablishesInv(robSize: nat, iqSize: nat, width: nat)
    ensures var s := Config(FreshState(), robSize, iqSize, width);
      Inv(s) && Drained(s.(traceDepleted := true)) &&
      s.cycleCount == 0 && s.robTail == 0 && s.totalRead == 0 && !s.traceDepleted &&
      s.robSize == robSize && s.iqSize == iqSize && s.width == width &&
      forall k :: 0 <= k < |s.rmt| ==> s.rmt[k] == RmtEntry(false, 0)
  {
    ConfigTracked(robSize, iqSize, width);
  }

  lemma RetireKeepsInv(s: State)
    requires Inv(s)
    ensures Inv(Retire(s))
    ensures var s' := Retire(s); |s.retiredLog| <= |s'.retiredLog| && s'.retiredLog[..|s.retiredLog|] == s.retiredLog
  {
    RetireKeepsTracked(s);
    var u := Retirement(TickAll(s.rtReg, RT), s.rob, s.rmt, s.retiredLog);
    RetireRoundsPopsHead(u, s.width);
    RetireRoundsFrees(u, s.width);
  }

  lemma WriteBackKeepsInv(s: State)
    requires Inv(s)
    ensures Inv(WriteBack(s))
  {
    WriteBackStageMarks(Completion(s.wbReg, s.rtReg, s.rob));
    WriteBackKeepsTracked(s);
  }

  lemma ExecuteKeepsInv(s: State)
    requires Inv(s)
    ensures Inv(Execute(s))
  {
    var ex := TickAll(s.executeList, EX);
    var m := AdvanceAll(ex);
    TickKeeps(s.executeList, EX, s.robTail);
    AdvanceKeeps(ex, s.robTail);
    BroadcastAllWakes(s.iqReg, m);
    BroadcastAllWakes(s.diReg, m);
    BroadcastAllWakes(s.rrReg, m);
    WakeKeeps(s.iqReg, WokenTags(m), s.robTail);
    WakeKeeps(s.diReg, WokenTags(m), s.robTail);
    WakeKeeps(s.rrReg, WokenTags(m), s.robTail);
    ExecuteKeepsTracked(s);
  }

  /** Selection moves instructions between two buffers and keeps the
      per-instruction facts; IQ_reg does not grow. */
  lemma SelectedKeeps(iq: seq<Instruction>, ex: seq<Instruction>, n: nat, iq': seq<Instruction>, ex': seq<Instruction>, tail: nat)
    requires Selected(iq, ex, n, iq', ex')
    requires NoneFlagged(iq) && SourcesTagged(iq, tail) && NoneFlagged(ex) && SourcesTagged(ex, tail)
    ensures |iq'| <= |iq| && NoneFlagged(iq') && SourcesTagged(iq', tail) && NoneFlagged(ex') && SourcesTagged(ex', tail)
  {
    var issued := ex'[|ex|..];
    assert |multiset(iq')| <= |multiset(iq)|;
    PartKeeps(iq, iq', multiset(issued), tail);
    PartKeeps(iq, issued, multiset(iq'), tail);
    assert ex' == ex + issued;
  }

  lemma IssueKeepsInv(s: State)
    requires Inv(s)
    ensures Inv(Issue(s))
  {
    IssueStageSelects(s.iqReg, s.executeList, s.width);
    TickKeeps(s.iqReg, IS, s.robTail);
    var (iq', ex') := IssueStage(s.iqReg, s.executeList, s.width);
    SelectedKeeps(TickAll(s.iqReg, IS), s.executeList, s.width, iq', ex', s.robTail);
    IssueKeepsTracked(s);
  }

  lemma DispatchKeepsInv(s: State)
    requires Inv(s)
    ensures Inv(Dispatch(s))
  {
    DispatchStageMoves(s.diReg, s.iqReg, s.iqSize);
    TickKeeps(s.diReg, DI, s.robTail);
    DispatchKeepsTracked(s);
  }

  lemma RegisterReadKeepsInv(s: State)
    requires Inv(s)
    ensures Inv(RegisterRead(s))
  {
    TickKeeps(s.rrReg, RR, s.robTail);
    ReadKeeps(TickAll(s.rrReg, RR), s.rob, s.robTail);
    RegisterReadKeepsTracked(s);
  }

  lemma RenameKeepsInv(s: State)
    requires Inv(s)
    ensures Inv(Rename(s))
  {
    var v := Renaming(s.rnReg, s.rrReg, s.rob, s.rmt, s.robTail);
    var w := v.(rnReg := TickAll(v.rnReg, RN));
    var r := RenameStage(v, s.robSize, s.width);
    RenameStageRenames(v, s.robSize, s.width);
    RenameStageKeeps(v, s.robSize, s.width);
    RenamedMapped(w, r, |r.rob| - |v.rob|, RmtSize);
    SourcesLater(s.diReg, s.robTail, r.robTail);
    SourcesLater(s.iqReg, s.robTail, r.robTail);
    SourcesLater(s.executeList, s.robTail, r.robTail);
    RenameKeepsTracked(s);
  }

  /** ROB_tail only grows, so a source tagged below it stays so. */
  lemma SourcesLater(buf: seq<Instruction>, tail: nat, tail': nat)
    requires SourcesTagged(buf, tail) && tail <= tail'
    ensures SourcesTagged(buf, tail')
  {
    forall x | x in buf ensures Waiting(x, tail') {
      assert Waiting(x, tail);
    }
  }

  lemma DecodeKeepsInv(s: State)
    requires Inv(s)
    ensures Inv(Decode(s))
  {
    TickKeeps(s.deReg, DE, s.robTail);
    DecodeKeepsTracked(s);
  }

  lemma FetchKeepsInv(s: State, records: seq<TraceRecord>, pos: nat)
    requires Inv(s) && pos <= |records|
    requires forall k :: 0 <= k < |records| ==> WellFormed(records[k])
    ensures Inv(Fetch(s, records, pos).0) && pos <= Fetch(s, records, pos).1 <= |records|
  {
    var v := Fetching(s.deReg, s.totalRead, s.traceDepleted, pos);
    var r := FetchStage(v, records, s.width, s.cycleCount);
    FetchKeepsRegsMapped(v, records, s.width, s.cycleCount);
    FetchStageReads(v, records, s.width, s.cycleCount);
    FetchKeepsTracked(s, records, pos);
    forall x | x in r.deReg ensures !x.writeBack {
      var k :| 0 <= k < |r.deReg| && r.deReg[k] == x;
    }
  }

  /** One simulated cycle (the driver's loop body) keeps the invariant, never
      changes the configuration, never moves the trace position backwards
      or past the end of the trace, only appends to the log of retired
      instructions, and leaves that log in strictly increasing age order. */
  lemma CycleKeepsInv(s: State, records: seq<TraceRecord>, pos: nat)
    requires Inv(s) && pos <= |records|
    requires forall k :: 0 <= k < |records| ==> WellFormed(records[k])
    ensures var (s', pos', _) := Cycle(s, records, pos);
      Inv(s') && pos <= pos' <= |records| &&
      s'.robSize == s.robSize && s'.iqSize == s.iqSize && s'.width == s.width &&
      s'.cycleCount == s.cycleCount + 1 &&
      |s.retiredLog| <= |s'.retiredLog| && s'.retiredLog[..|s.retiredLog|] == s.retiredLog &&
      forall i, j :: 0 <= i < j < |s'.retiredLog| ==> s'.retiredLog[i].age < s'.retiredLog[j].age
  {
    var s1 := Retire(s);
    RetireKeepsInv(s);
    var s2 := WriteBack(s1);
    WriteBackKeepsInv(s1);
    var s3 := Execute(s2);
    ExecuteKeepsInv(s2);
    var s4 := Issue(s3);
    IssueKeepsInv(s3);
    var s5 := Dispatch(s4);
    DispatchKeepsInv(s4);
    var s6 := RegisterRead(s5);
    RegisterReadKeepsInv(s5);
    var s7 := Rename(s6);
    RenameKeepsInv(s6);
    var s8 := Decode(s7);
    DecodeKeepsInv(s7);
    FetchKeepsInv(s8, records, pos);
    var s9 := Fetch(s8, records, pos).0;
    AdvanceCycleKeepsInv(s9);
    CycleLog(s, records, pos);
    LogInAgeOrder(AdvanceCycle(s9).0);
  }

  /** advance_cycle only counts the cycle. */
  lemma AdvanceCycleKeepsInv(s: State)
    requires Inv(s)
    ensures Inv(AdvanceCycle(s).0)
  {
    var s' := AdvanceCycle(s).0;
    assert InFlightTags(s') == InFlightTags(s);
  }

  /** Of all stages only retire touches the log of retired instructions. */
  lemma CycleLog(s: State, records: seq<TraceRecord>, pos: nat)
    requires pos <= |records|
    ensures Cycle(s, records, pos).0.retiredLog == Retire(s).retiredLog
  {
    var s1 := Retire(s);
    var s2 := WriteBack(s1);
    assert s2.retiredLog == s1.retiredLog;
    var s3 := Execute(s2);
    assert s3.retiredLog == s1.retiredLog;
    var s4 := Issue(s3);
    assert s4.retiredLog == s1.retiredLog;
    var s5 := Dispatch(s4);
    assert s5.retiredLog == s1.retiredLog;
    var s6 := RegisterRead(s5);
    assert s6.retiredLog == s1.retiredLog;
    var s7 := Rename(s6);
    assert s7.retiredLog == s1.retiredLog;
    var s8 := Decode(s7);
    assert s8.retiredLog == s1.retiredLog;
  }

  /** Under the invariant retire reports exactly one instruction per
      committed ROB entry: the log keeps its contents and gains, in ROB
      order, one instruction per entry of the ready prefix, carrying that
      entry's tag as its tag and as its age. */
  lemma RetireReportsEach(s: State)
    requires Inv(s)
    ensures var s' := Retire(s); var c := ReadyPrefix(s.rob, s.width);
      s'.rob == s.rob[c..] &&
      |s'.retiredLog| == |s.retiredLog| + c && s'.retiredLog[..|s.retiredLog|] == s.retiredLog &&
      forall j :: 0 <= j < c ==>
        s'.retiredLog[|s.retiredLog| + j].robTag == s.rob[j].tag &&
        s'.retiredLog[|s.retiredLog| + j].age == s.rob[j].tag
  {
    var s' := Retire(s);
    var c := ReadyPrefix(s.rob, s.width);
    RetireLogOrder(s);
    RetireKeepsInv(s);
    RetireRoundsPopsHead(Retirement(TickAll(s.rtReg, RT), s.rob, s.rmt, s.retiredLog), s.width);
    forall j | 0 <= j < c ensures s'.retiredLog[|s.retiredLog| + j].age == s.rob[j].tag {
      assert s'.retiredLog[|s.retiredLog| + j] in s'.retiredLog;
    }
  }

  /** Under the invariant the log of retired instructions is in strictly
      increasing age order: instructions retire in program order, each once. */
  lemma LogInAgeOrder(s: State)
    requires Inv(s)
    ensures forall i, j :: 0 <= i < j < |s.retiredLog| ==> s.retiredLog[i].age < s.retiredLog[j].age
  {
    forall i, j | 0 <= i < j < |s.retiredLog| ensures s.retiredLog[i].age < s.retiredLog[j].age {
      assert s.retiredLog[i] in s.retiredLog && s.retiredLog[j] in s.retiredLog;
    }
  }

  /** Under the invariant each ROB entry's tag is carried by exactly one
      instruction: in RT_reg when the entry is ready, among the instructions
      still to write back otherwise. */
  lemma RobEntryCarried(s: State, k: nat)
    requires Inv(s) && k < |s.rob|
    ensures TagBag(s.rtReg)[s.rob[k].tag] == (if s.rob[k].ready then 1 else 0)
    ensures InFlightTags(s)[s.rob[k].tag] == (if s.rob[k].ready then 0 else 1)
  {
    TagsWhereCount(s.rob, true, k);
    TagsWhereCount(s.rob, false, k);
  }

  /** ... and every such instruction has its ROB entry: ready for one in
      RT_reg, waiting for one still to write back. */
  lemma CarriedHasEntry(s: State, t: nat)
    requires Inv(s)
    ensures t in TagBag(s.rtReg) ==> exists k :: 0 <= k < |s.rob| && s.rob[k].tag == t && s.rob[k].ready
    ensures t in InFlightTags(s) ==> exists k :: 0 <= k < |s.rob| && s.rob[k].tag == t && !s.rob[k].ready
  {
    TagsWhereMember(s.rob, true, t);
    TagsWhereMember(s.rob, false, t);
  }

  /** Under the invariant issue sends instructions to execute in strictly
      increasing age order, and every ready instruction it leaves behind is
      strictly younger than every one it issued. */
  lemma IssueInAgeOrder(s: State)
    requires Inv(s)
    ensures |s.executeList| <= |Issue(s).executeList|
    ensures var s' := Issue(s); var issued := s'.executeList[|s.executeList|..];
      (forall i, j :: 0 <= i < j < |issued| ==> issued[i].age < issued[j].age) &&
      (forall x, y :: x in issued && y in s'.iqReg && IsReady(y) ==> x.age < y.age)
  {
    var iq := TickAll(s.iqReg, IS);
    IssueStageSelects(s.iqReg, s.executeList, s.width);
    var (iq', ex') := IssueStage(s.iqReg, s.executeList, s.width);
    TickIds(s.iqReg, IS);
    SameIdsKeep(s.iqReg, iq);
    IqTagsOnce(s);
    SelectedStrict(iq, s.executeList, s.width, iq', ex');
  }

  /** Under the invariant no tag is carried twice in IQ_reg. */
  lemma IqTagsOnce(s: State)
    requires Inv(s)
    ensures forall t :: TagBag(s.iqReg)[t] <= 1
  {
    forall t ensures TagBag(s.iqReg)[t] <= 1 {
      TagsWhereUnique(s.rob, false, t);
    }
  }

  /** A selection from a queue whose instructions carry distinct tags, each
      its own age, is strictly ordered by age. */
  lemma SelectedStrict(iq: seq<Instruction>, ex: seq<Instruction>, n: nat, iq': seq<Instruction>, ex': seq<Instruction>)
    requires Selected(iq, ex, n, iq', ex') && AgeIsTag(iq) && forall t :: TagBag(iq)[t] <= 1
    ensures var issued := ex'[|ex|..];
      (forall i, j :: 0 <= i < j < |issued| ==> issued[i].age < issued[j].age) &&
      (forall x, y :: x in issued && y in iq' && IsReady(y) ==> x.age < y.age)
  {
    var issued := ex'[|ex|..];
    AgeIsTagPart(iq, issued, multiset(iq'));
    AgeIsTagPart(iq, iq', multiset(issued));
    assert multiset(iq' + issued) == multiset(iq);
    TagsPerm(iq' + issued, iq);
    TagsAppend(iq', issued);
    forall i, j | 0 <= i < j < |issued| ensures issued[i].age < issued[j].age {
      TwoPositions(Tags(issued), i, j);
      assert (TagBag(iq') + TagBag(issued))[issued[i].robTag] <= 1;
    }
    forall x, y | x in issued && y in iq' && IsReady(y) ensures x.age < y.age {
      TagIn(issued, x);
      TagIn(iq', y);
      assert (TagBag(iq') + TagBag(issued))[x.robTag] <= 1;
    }
  }

  lemma TagIn(buf: seq<Instruction>, x: Instruction)
    requires x in buf
    ensures x.robTag in TagBag(buf)
  {
    var k :| 0 <= k < |buf| && buf[k] == x;
    assert Tags(buf)[k] == x.robTag;
  }
}
