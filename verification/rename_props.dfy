/** What rename promises: it stalls as a whole or renames
    min(width, |RN_reg|) instructions, each taking the next ROB tag and a new
    not-ready ROB entry at the tail; the RMT then maps each destination to
    its latest producer, and sources are renamed through the map. */
module RenameProps {
  import opened Records
  import opened Seqs
  import opened Stages
  import opened CompleteProps

  /** `out` is `i` renamed with tag `tag`: the tag is recorded, a destination
      is replaced by the tag, and only the sources may differ otherwise. */
  predicate Tagged(out: Instruction, i: Instruction, tag: nat)
  {
    out.robTag == tag &&
    out.dest == (if i.dest != NoReg then tag as int else i.dest) &&
    out.(robTag := i.robTag, dest := i.dest, src1 := i.src1, src2 := i.src2,
         src1Ready := i.src1Ready, src2Ready := i.src2Ready) == i
  }

  /** `r` is `v` after the first `c` instructions of RN_reg were renamed in
      order: they left RN_reg for the end of RR_reg, each with the next tag,
      each with a not-ready ROB entry appended at the tail. */
  predicate RenamedInto(v: Renaming, r: Renaming, c: nat)
  {
    c <= |v.rnReg| &&
    r.rnReg == v.rnReg[c..] && r.robTail == v.robTail + c &&
    |r.rob| == |v.rob| + c && r.rob[..|v.rob|] == v.rob &&
    |r.rrReg| == |v.rrReg| + c && r.rrReg[..|v.rrReg|] == v.rrReg &&
    |r.rmt| == |v.rmt| &&
    (forall j :: 0 <= j < c ==> r.rob[|v.rob| + j] == RobEntry(v.rnReg[j].pc, false, v.rnReg[j].dest, v.robTail + j)) &&
    (forall j :: 0 <= j < c ==> Tagged(r.rrReg[|v.rrReg| + j], v.rnReg[j], v.robTail + j))
  }

  /** One rename. */
  lemma RenameOneRenames(v: Renaming)
    requires v.rnReg != []
    ensures RenamedInto(v, RenameOne(v), 1)
  {
    var r := RenameOne(v);
    assert r.rob[..|v.rob|] == v.rob;
    assert r.rrReg[..|v.rrReg|] == v.rrReg;
  }

  lemma RenamedIntoTrans(v: Renaming, w: Renaming, r: Renaming, c: nat)
    requires RenamedInto(v, w, 1) && RenamedInto(w, r, c)
    ensures RenamedInto(v, r, c + 1)
  {
    assert v.rnReg[1..][c..] == v.rnReg[c + 1..];
    assert r.rob[..|v.rob|] == r.rob[..|w.rob|][..|v.rob|];
    assert r.rrReg[..|v.rrReg|] == r.rrReg[..|w.rrReg|][..|v.rrReg|];
    forall j | 0 <= j < c + 1
      ensures r.rob[|v.rob| + j] == RobEntry(v.rnReg[j].pc, false, v.rnReg[j].dest, v.robTail + j)
      ensures Tagged(r.rrReg[|v.rrReg| + j], v.rnReg[j], v.robTail + j)
    {
      if j == 0 {
        assert r.rob[|v.rob|] == r.rob[..|w.rob|][|v.rob|];
        assert r.rrReg[|v.rrReg|] == r.rrReg[..|w.rrReg|][|v.rrReg|];
      } else {
        assert v.rnReg[j] == w.rnReg[j - 1];
        assert |v.rob| + j == |w.rob| + (j - 1);
        assert |v.rrReg| + j == |w.rrReg| + (j - 1);
      }
    }
  }

  /** The rounds rename min(n, |RN_reg|) instructions. */
  lemma {:induction false} RenameRoundsRenames(v: Renaming, n: nat)
    ensures RenamedInto(v, RenameRounds(v, n), Min(n, |v.rnReg|))
    decreases n
  {
    if n == 0 || v.rnReg == [] {
      assert v.rob[..|v.rob|] == v.rob && v.rrReg[..|v.rrReg|] == v.rrReg;
    } else {
      var w := RenameOne(v);
      assert RenameRounds(v, n) == RenameRounds(w, n - 1);
      RenameOneRenames(v);
      RenameRoundsRenames(w, n - 1);
      RenamedIntoTrans(v, w, RenameRounds(w, n - 1), Min(n - 1, |w.rnReg|));
    }
  }

  /** `rmt` maps each register to its latest producer among the first `c`
      instructions of `rn` (tagged from `tail` on), and keeps the mapping of
      `rmt0` for registers none of them writes. */
  predicate MapsLatest(rn: seq<Instruction>, tail: nat, rmt0: seq<RmtEntry>, rmt: seq<RmtEntry>, c: nat)
    requires c <= |rn| && |rmt| == |rmt0|
  {
    forall k :: 0 <= k < |rmt0| ==>
      ((forall j :: 0 <= j < c ==> rn[j].dest != k) ==> rmt[k] == rmt0[k]) &&
      (forall j :: 0 <= j < c && rn[j].dest == k ==>
         rmt[k].valid && tail + j <= rmt[k].robTag < tail + c && rn[rmt[k].robTag - tail].dest == k)
  }

  lemma MapsLatestTrans(rn: seq<Instruction>, tail: nat, rmt0: seq<RmtEntry>, rmt1: seq<RmtEntry>, rmt2: seq<RmtEntry>, c: nat)
    requires c + 1 <= |rn| && |rmt0| == |rmt1| == |rmt2|
    requires rmt1 == if 0 <= rn[0].dest < |rmt0| then rmt0[rn[0].dest := RmtEntry(true, tail)] else rmt0
    requires MapsLatest(rn[1..], tail + 1, rmt1, rmt2, c)
    ensures MapsLatest(rn, tail, rmt0, rmt2, c + 1)
  {
    var rn1 := rn[1..];
    forall k | 0 <= k < |rmt0|
      ensures (forall j :: 0 <= j < c + 1 ==> rn[j].dest != k) ==> rmt2[k] == rmt0[k]
      ensures forall j :: 0 <= j < c + 1 && rn[j].dest == k ==>
         rmt2[k].valid && tail + j <= rmt2[k].robTag < tail + c + 1 && rn[rmt2[k].robTag - tail].dest == k
    {
      if j' :| 0 <= j' < c && rn1[j'].dest == k {
        var tag := rmt2[k].robTag;
        assert rn[tag - tail] == rn1[tag - tail - 1];
        assert rn[j' + 1] == rn1[j'];
      } else {
        assert forall j :: 1 <= j < c + 1 ==> rn[j] == rn1[j - 1];
      }
    }
  }

  /** Reference RMT after renaming the first `c` instructions of `rn`, tagged
      from `tail` on: each destination in range is mapped to its tag. */
  function LatestMap(rn: seq<Instruction>, tail: nat, rmt0: seq<RmtEntry>, c: nat): seq<RmtEntry>
    requires c <= |rn|
    decreases c
  {
    if c == 0 then rmt0
    else
      var d := rn[0].dest;
      LatestMap(rn[1..], tail + 1, if 0 <= d < |rmt0| then rmt0[d := RmtEntry(true, tail)] else rmt0, c - 1)
  }

  lemma {:induction false} LatestMapMaps(rn: seq<Instruction>, tail: nat, rmt0: seq<RmtEntry>, c: nat)
    requires c <= |rn|
    ensures |LatestMap(rn, tail, rmt0, c)| == |rmt0| && MapsLatest(rn, tail, rmt0, LatestMap(rn, tail, rmt0, c), c)
    decreases c
  {
    if c > 0 {
      var d := rn[0].dest;
      var rmt1 := if 0 <= d < |rmt0| then rmt0[d := RmtEntry(true, tail)] else rmt0;
      LatestMapMaps(rn[1..], tail + 1, rmt1, c - 1);
      MapsLatestTrans(rn, tail, rmt0, rmt1, LatestMap(rn, tail, rmt0, c), c - 1);
    }
  }

  /** The rounds leave the RMT that the reference map describes. */
  lemma {:induction false} RenameRoundsRmt(v: Renaming, n: nat)
    ensures RenameRounds(v, n).rmt == LatestMap(v.rnReg, v.robTail, v.rmt, Min(n, |v.rnReg|))
    decreases n
  {
    if n > 0 && v.rnReg != [] {
      var w := RenameOne(v);
      assert RenameRounds(v, n) == RenameRounds(w, n - 1);
      assert Min(n - 1, |w.rnReg|) + 1 == Min(n, |v.rnReg|);
      RenameRoundsRmt(w, n - 1);
    }
  }

  lemma RenameRoundsMaps(v: Renaming, n: nat)
    ensures var r := RenameRounds(v, n);
      |r.rmt| == |v.rmt| && MapsLatest(v.rnReg, v.robTail, v.rmt, r.rmt, Min(n, |v.rnReg|))
  {
    RenameRoundsRmt(v, n);
    LatestMapMaps(v.rnReg, v.robTail, v.rmt, Min(n, |v.rnReg|));
  }

  /** Source rename: a source that is NoReg or has no valid mapping keeps its
      register and is ready; a mapped source takes its producer's tag and is
      ready exactly when that tag is absent from the ROB (the ROB entry of
      the instruction itself included) or its first entry is ready. */
  lemma RenameOneSources(v: Renaming)
    requires v.rnReg != []
    ensures var i, r := v.rnReg[0], RenameOne(v); var out := r.rrReg[|v.rrReg|];
      (if 0 <= i.src1 < |v.rmt| && v.rmt[i.src1].valid
       then out.src1 == v.rmt[i.src1].robTag &&
            out.src1Ready == (match RobIndexOf(r.rob, out.src1) case None => true case Some(k) => r.rob[k].ready)
       else out.src1 == i.src1 && out.src1Ready) &&
      (if 0 <= i.src2 < |v.rmt| && v.rmt[i.src2].valid
       then out.src2 == v.rmt[i.src2].robTag &&
            out.src2Ready == (match RobIndexOf(r.rob, out.src2) case None => true case Some(k) => r.rob[k].ready)
       else out.src2 == i.src2 && out.src2Ready)
  {
    var i, r := v.rnReg[0], RenameOne(v);
    var e := RobEntry(i.pc, false, i.dest, v.robTail);
    assert r.rob == v.rob + [e];
    if 0 <= i.src1 < |v.rmt| && v.rmt[i.src1].valid {
      TagReadyPush(v.rob, e, v.rmt[i.src1].robTag);
      TagReadyIndex(r.rob, v.rmt[i.src1].robTag);
    }
    if 0 <= i.src2 < |v.rmt| && v.rmt[i.src2].valid {
      TagReadyPush(v.rob, e, v.rmt[i.src2].robTag);
      TagReadyIndex(r.rob, v.rmt[i.src2].robTag);
    }
  }

  /** Every valid RMT mapping names a tag already handed out. */
  predicate RmtBelow(rmt: seq<RmtEntry>, tail: nat)
  {
    forall k :: 0 <= k < |rmt| && rmt[k].valid ==> rmt[k].robTag < tail
  }

  /** A source that is not ready holds a ROB tag handed out before `tail`. */
  predicate Waiting(i: Instruction, tail: nat)
  {
    (!i.src1Ready ==> 0 <= i.src1 < tail) && (!i.src2Ready ==> 0 <= i.src2 < tail)
  }

  predicate SourcesTagged(buf: seq<Instruction>, tail: nat)
  {
    forall x :: x in buf ==> Waiting(x, tail)
  }

  /** One rename keeps the mappings below ROB_tail; the renamed instruction
      is unflagged, and each of its sources is ready or holds the tag of a
      producer renamed before it. */
  lemma RenameOneKeeps(v: Renaming)
    requires v.rnReg != [] && RmtBelow(v.rmt, v.robTail)
    requires SourcesTagged(v.rrReg, v.robTail) && NoneFlagged(v.rrReg) && NoneFlagged(v.rnReg)
    ensures var w := RenameOne(v);
      RmtBelow(w.rmt, w.robTail) && SourcesTagged(w.rrReg, w.robTail) && NoneFlagged(w.rrReg) && NoneFlagged(w.rnReg)
  {
    var w := RenameOne(v);
    RenameOneSources(v);
    RenameOneRenames(v);
    var out := w.rrReg[|v.rrReg|];
    assert w.rrReg == v.rrReg + [out];
    assert v.rnReg[0] in v.rnReg;
    assert Waiting(out, w.robTail);
    forall x | x in w.rnReg ensures !x.writeBack {
      assert x in v.rnReg;
    }
  }

  lemma {:induction false} RenameRoundsKeep(v: Renaming, n: nat)
    requires RmtBelow(v.rmt, v.robTail)
    requires SourcesTagged(v.rrReg, v.robTail) && NoneFlagged(v.rrReg) && NoneFlagged(v.rnReg)
    ensures var r := RenameRounds(v, n);
      RmtBelow(r.rmt, r.robTail) && SourcesTagged(r.rrReg, r.robTail) && NoneFlagged(r.rrReg) && NoneFlagged(r.rnReg)
    decreases n
  {
    if n > 0 && v.rnReg != [] {
      RenameOneKeeps(v);
      RenameRoundsKeep(RenameOne(v), n - 1);
      assert RenameRounds(v, n) == RenameRounds(RenameOne(v), n - 1);
    }
  }

  /** rename keeps the mappings below ROB_tail, leaves every instruction
      of RN_reg and RR_reg unflagged, and every source of RR_reg that is not
      ready holds a tag handed out before the new ROB_tail. */
  lemma RenameStageKeeps(v: Renaming, robSize: nat, width: nat)
    requires RmtBelow(v.rmt, v.robTail)
    requires SourcesTagged(v.rrReg, v.robTail) && NoneFlagged(v.rrReg) && NoneFlagged(v.rnReg)
    ensures var r := RenameStage(v, robSize, width);
      v.robTail <= r.robTail &&
      RmtBelow(r.rmt, r.robTail) && SourcesTagged(r.rrReg, r.robTail) && NoneFlagged(r.rrReg) && NoneFlagged(r.rnReg)
  {
    var w := v.(rnReg := TickAll(v.rnReg, RN));
    forall x | x in w.rnReg ensures !x.writeBack {
      var k :| 0 <= k < |w.rnReg| && w.rnReg[k] == x;
      assert v.rnReg[k] in v.rnReg;
    }
    RenameRoundsKeep(w, width);
    RenameRoundsRenames(w, width);
  }

  /** Register numbers of the instructions left in RN_reg and destinations
      of the new ROB entries still index the RMT. */
  lemma RenamedMapped(w: Renaming, r: Renaming, c: nat, n: nat)
    requires RenamedInto(w, r, c) && DestsMapped(w.rob, n) && RegsMapped(w.rnReg, n)
    ensures DestsMapped(r.rob, n) && RegsMapped(r.rnReg, n)
  {
    forall k | 0 <= k < |r.rob| ensures NoReg <= r.rob[k].dest < n {
      if k < |w.rob| {
        assert r.rob[k] == r.rob[..|w.rob|][k];
      } else {
        assert r.rob[|w.rob| + (k - |w.rob|)] == RobEntry(w.rnReg[k - |w.rob|].pc, false, w.rnReg[k - |w.rob|].dest, w.robTail + (k - |w.rob|));
      }
    }
    forall k | 0 <= k < |r.rnReg| ensures r.rnReg[k] == w.rnReg[c + k] {
    }
  }

  /** Every ROB tag is below ROB_tail. */
  predicate TagsBelow(rob: seq<RobEntry>, tail: nat)
  {
    forall k :: 0 <= k < |rob| ==> rob[k].tag < tail
  }

  /** Entries appended with consecutive tags from ROB_tail on keep the ROB
      tags ascending and below the new ROB_tail. */
  lemma AppendAscending(rob0: seq<RobEntry>, rob: seq<RobEntry>, tail: nat, c: nat)
    requires |rob| == |rob0| + c && rob[..|rob0|] == rob0
    requires TagsAscending(rob0) && TagsBelow(rob0, tail)
    requires forall k :: |rob0| <= k < |rob| ==> rob[k].tag == tail + (k - |rob0|)
    ensures TagsAscending(rob) && TagsBelow(rob, tail + c)
  {
    forall k | 0 <= k < |rob0| ensures rob[k] == rob0[k] {
      assert rob[k] == rob[..|rob0|][k];
    }
  }

  /** Renaming keeps the ROB tags ascending and below ROB_tail. */
  lemma RenamedAscending(w: Renaming, r: Renaming, c: nat)
    requires RenamedInto(w, r, c) && TagsAscending(w.rob) && TagsBelow(w.rob, w.robTail)
    ensures TagsAscending(r.rob) && TagsBelow(r.rob, r.robTail)
  {
    forall k | |w.rob| <= k < |r.rob| ensures r.rob[k].tag == w.robTail + (k - |w.rob|) {
      var j := k - |w.rob|;
      assert r.rob[|w.rob| + j] == RobEntry(w.rnReg[j].pc, false, w.rnReg[j].dest, w.robTail + j);
    }
    AppendAscending(w.rob, r.rob, w.robTail, c);
  }

  /** rename either stalls, changing nothing but the RN_reg residency
      counters, or renames min(width, |RN_reg|) instructions; the ROB stays
      within `robSize` and its tags keep increasing from head to tail, all
      below ROB_tail. */
  lemma RenameStageRenames(v: Renaming, robSize: nat, width: nat)
    requires |v.rob| <= robSize && TagsAscending(v.rob) && TagsBelow(v.rob, v.robTail)
    ensures var w, r := v.(rnReg := TickAll(v.rnReg, RN)), RenameStage(v, robSize, width);
      var stall := |v.rrReg| != 0 || robSize - |v.rob| < width || v.rnReg == [];
      var c := if stall then 0 else Min(width, |v.rnReg|);
      RenamedInto(w, r, c) && MapsLatest(w.rnReg, w.robTail, w.rmt, r.rmt, c) &&
      (stall ==> r == w) &&
      |r.rob| <= robSize && TagsAscending(r.rob) && TagsBelow(r.rob, r.robTail)
  {
    var w, r := v.(rnReg := TickAll(v.rnReg, RN)), RenameStage(v, robSize, width);
    var stall := |v.rrReg| != 0 || robSize - |v.rob| < width || v.rnReg == [];
    if stall {
      assert w.rob[..|w.rob|] == w.rob && w.rrReg[..|w.rrReg|] == w.rrReg;
    } else {
      var c := Min(width, |v.rnReg|);
      assert r == RenameRounds(w, width);
      RenameRoundsRenames(w, width);
      RenameRoundsMaps(w, width);
      RenamedAscending(w, r, c);
    }
  }
}
