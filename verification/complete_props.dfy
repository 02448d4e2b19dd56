/** What write_back and execute promise: completion after a fixed latency,
    the wakeup of every waiting source naming a completed producer, and the
    ready flag set on the ROB entry of every written-back instruction. */
module CompleteProps {
  import opened Records
  import opened Seqs
  import opened Stages

  // ---------------------------------------------------------------- write_back

  /** The ROB tags carried by the instructions of `wb`. */
  function TagSet(wb: seq<Instruction>): set<nat>
  {
    if wb == [] then {} else {wb[0].robTag} + TagSet(wb[1..])
  }

  /** With distinct ROB tags, MarkReady marks exactly the entry carrying `tag`. */
  lemma MarkReadyUnique(rob: seq<RobEntry>, tag: nat)
    requires TagsAscending(rob)
    ensures var r := MarkReady(rob, tag);
      |r| == |rob| && forall k :: 0 <= k < |rob| ==> r[k] == rob[k].(ready := rob[k].ready || rob[k].tag == tag)
  {
    RobIndexOfFirst(rob, tag);
  }

  /** write_back's marking: every ROB entry whose tag a WB_reg instruction
      carries becomes ready; nothing else changes. */
  lemma {:induction false} MarkAllReadyMarks(rob: seq<RobEntry>, wb: seq<Instruction>)
    requires TagsAscending(rob)
    ensures var r := MarkAllReady(rob, wb);
      |r| == |rob| && forall k :: 0 <= k < |rob| ==> r[k] == rob[k].(ready := rob[k].ready || rob[k].tag in TagSet(wb))
    decreases |wb|
  {
    if wb != [] {
      var rob1 := MarkReady(rob, wb[0].robTag);
      MarkReadyUnique(rob, wb[0].robTag);
      assert TagsAscending(rob1);
      MarkAllReadyMarks(rob1, wb[1..]);
    }
  }

  lemma {:induction false} TagSetTick(wb: seq<Instruction>)
    ensures TagSet(TickAll(wb, WB)) == TagSet(wb)
    decreases |wb|
  {
    if wb != [] {
      TagSetTick(wb[1..]);
      assert TickAll(wb, WB)[1..] == TickAll(wb[1..], WB);
    }
  }

  /** write_back: WB_reg drains, in order, onto the end of RT_reg, and the
      ROB entries of exactly the drained instructions become ready. */
  lemma WriteBackStageMarks(v: Completion)
    requires TagsAscending(v.rob)
    ensures var r := WriteBackStage(v);
      r.wbReg == [] && r.rtReg == v.rtReg + TickAll(v.wbReg, WB) &&
      |r.rob| == |v.rob| &&
      forall k :: 0 <= k < |v.rob| ==> r.rob[k] == v.rob[k].(ready := v.rob[k].ready || v.rob[k].tag in TagSet(v.wbReg))
  {
    MarkAllReadyMarks(v.rob, TickAll(v.wbReg, WB));
    TagSetTick(v.wbReg);
  }

  // ---------------------------------------------------------------- execute

  lemma WakeAllUnion(buf: seq<Instruction>, s: set<int>, t: set<int>)
    ensures WakeAll(WakeAll(buf, s), t) == WakeAll(buf, s + t)
  {
  }

  lemma WokenTagsSnoc(m: seq<Instruction>, a: Instruction)
    ensures WokenTags(m + [a]) == WokenTags(m) + (if Completes(a) && a.dest != NoReg then {a.dest} else {})
  {
    var m' := m + [a];
    forall t | t in WokenTags(m') ensures t in WokenTags(m) + (if Completes(a) && a.dest != NoReg then {a.dest} else {}) {
      var k :| 0 <= k < |m'| && Completes(m'[k]) && m'[k].dest != NoReg && m'[k].dest == t;
      if k < |m| {
        assert m[k] == m'[k];
      }
    }
    forall t | t in WokenTags(m) ensures t in WokenTags(m') {
      var k :| 0 <= k < |m| && Completes(m[k]) && m[k].dest != NoReg && m[k].dest == t;
      assert m'[k] == m[k];
    }
    if Completes(a) && a.dest != NoReg {
      assert m'[|m|] == a;
    }
  }

  /** The broadcasts one by one, in execute_list order, wake exactly the
      sources that name some completed producer of `m`. */
  lemma {:induction false} BroadcastAllWakes(buf: seq<Instruction>, m: seq<Instruction>)
    ensures BroadcastAll(buf, m) == WakeAll(buf, WokenTags(m))
    decreases |m|
  {
    if m == [] {
      assert WakeAll(buf, {}) == buf;
    } else {
      var init, a := m[..|m| - 1], m[|m| - 1];
      BroadcastAllWakes(buf, init);
      assert m == init + [a];
      WokenTagsSnoc(init, a);
      if Completes(a) && a.dest != NoReg {
        WakeAllUnion(buf, WokenTags(init), {a.dest});
      }
    }
  }

  /** Nothing in execute_list is flagged for write-back between cycles. */
  predicate NoneFlagged(buf: seq<Instruction>)
  {
    forall x :: x in buf ==> !x.writeBack
  }

  /** execute: every instruction executes one more cycle; those whose
      latency is reached leave execute_list for the end of WB_reg, flagged,
      and the others stay unflagged; together they are the advanced
      execute_list. Every source of IQ_reg, DI_reg and RR_reg naming a
      completed producer wakes, and no ready flag is cleared. */
  lemma ExecuteStageCompletes(v: Execution)
    requires NoneFlagged(v.executeList)
    ensures var r := ExecuteStage(v); var m := AdvanceAll(TickAll(v.executeList, EX));
      (forall k :: 0 <= k < |m| ==> m[k].execTime == v.executeList[k].execTime + 1) &&
      |v.wbReg| <= |r.wbReg| && r.wbReg[..|v.wbReg|] == v.wbReg &&
      multiset(r.executeList) + multiset(r.wbReg[|v.wbReg|..]) == multiset(m) &&
      Interleaving(m, r.executeList, r.wbReg[|v.wbReg|..]) &&
      (forall x :: x in r.executeList ==> !Completes(x) && !x.writeBack) &&
      (forall x :: x in r.wbReg[|v.wbReg|..] ==> Completes(x) && x.writeBack) &&
      r.iqReg == WakeAll(v.iqReg, WokenTags(m)) &&
      r.diReg == WakeAll(v.diReg, WokenTags(m)) &&
      r.rrReg == WakeAll(v.rrReg, WokenTags(m))
  {
    var m := AdvanceAll(TickAll(v.executeList, EX));
    forall x | x in m ensures Pending(x) == !Completes(x) && (x.writeBack <==> Completes(x)) {
      var k :| 0 <= k < |m| && m[k] == x;
      assert v.executeList[k] in v.executeList;
    }
    FilterPartition(m, Pending, Completes);
    FilterInterleaves(m, Pending, Completes);
    assert (v.wbReg + Filter(m, Completes))[|v.wbReg|..] == Filter(m, Completes);
    BroadcastAllWakes(v.iqReg, m);
    BroadcastAllWakes(v.diReg, m);
    BroadcastAllWakes(v.rrReg, m);
  }

  /** A wakeup never clears a ready flag and changes nothing but the flags. */
  lemma WakeMonotone(buf: seq<Instruction>, tags: set<int>)
    ensures var r := WakeAll(buf, tags);
      |r| == |buf| &&
      forall k :: 0 <= k < |buf| ==>
        (buf[k].src1Ready ==> r[k].src1Ready) && (buf[k].src2Ready ==> r[k].src2Ready) &&
        r[k].(src1Ready := buf[k].src1Ready, src2Ready := buf[k].src2Ready) == buf[k]
  {
  }
}
