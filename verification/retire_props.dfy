/** What retire promises: it commits only at the ROB head, in ROB order, at
    most `width` instructions, and stops at the first head that is not
    ready; a rename mapping is freed only by the producer it still names. */
module RetireProps {
  import opened Records
  import opened Seqs
  import opened Stages
  import opened Tracking

  /** Reference count of the commits: the ready entries at the front of the
      ROB, at most `n` of them. */
  function ReadyPrefix(rob: seq<RobEntry>, n: nat): (c: nat)
    ensures c <= n && c <= |rob|
    ensures forall j :: 0 <= j < c ==> rob[j].ready
    ensures c < n && c < |rob| ==> !rob[c].ready
  {
    if n == 0 || rob == [] || !rob[0].ready then 0 else 1 + ReadyPrefix(rob[1..], n - 1)
  }

  /** The tags of the first `c` ROB entries. */
  function TagsOf(rob: seq<RobEntry>, c: nat): set<nat>
    requires c <= |rob|
  {
    if c == 0 then {} else TagsOf(rob, c - 1) + {rob[c - 1].tag}
  }

  /** The tags of a ROB prefix: the head's tag and those of the rest. */
  lemma {:induction false} TagsOfCons(rob: seq<RobEntry>, c: nat)
    requires 0 < c <= |rob|
    ensures TagsOf(rob, c) == {rob[0].tag} + TagsOf(rob[1..], c - 1)
  {
    if c > 1 {
      TagsOfCons(rob, c - 1);
    }
  }

  predicate Above(t: nat, tags: set<nat>)
  {
    forall u :: u in tags ==> t < u
  }

  /** With ascending tags, every tag behind the head is above the head's. */
  lemma {:induction false} TagsOfAbove(rob: seq<RobEntry>, c: nat)
    requires TagsAscending(rob) && 0 < c <= |rob|
    ensures Above(rob[0].tag, TagsOf(rob[1..], c - 1))
  {
    if c > 1 {
      TagsOfAbove(rob, c - 1);
      assert rob[1..][c - 2] == rob[c - 1];
    }
  }

  predicate RobTagsAscendingIn(log: seq<Instruction>)
  {
    forall i, j :: 0 <= i < j < |log| ==> log[i].robTag < log[j].robTag
  }

  /** The RMT rule of one commit: only the entry of `dest` can change, and it
      is invalidated exactly when it is valid and names the committing tag. */
  lemma FreeMappingRule(rmt: seq<RmtEntry>, dest: int, tag: nat)
    ensures var r := FreeMapping(rmt, dest, tag);
      |r| == |rmt| &&
      forall k :: 0 <= k < |rmt| ==>
        r[k].robTag == rmt[k].robTag &&
        r[k].valid == (rmt[k].valid && !(k == dest && rmt[k].robTag == tag))
  {
  }

  /** print_timing's search: the instruction carrying `tag` moves from RT_reg
      to the log if there is one; otherwise nothing changes. */
  lemma ReportRetiredMoves(rtReg: seq<Instruction>, log: seq<Instruction>, tag: nat)
    ensures var rt, log' := ReportRetired(rtReg, log, tag).0, ReportRetired(rtReg, log, tag).1;
      |log| <= |log'| <= |log| + 1 && log'[..|log|] == log &&
      multiset(rt) + multiset(log'[|log|..]) == multiset(rtReg) &&
      (forall x :: x in log'[|log|..] ==> x.robTag == tag) &&
      (|log'| == |log| <==> forall x :: x in rtReg ==> x.robTag != tag)
  {
    match IndexOfTag(rtReg, tag)
    case Some(k) =>
      RemoveAtMultiset(rtReg, k);
      assert (log + [rtReg[k]])[|log|..] == [rtReg[k]];
    case None =>
      assert log[|log|..] == [];
  }

  /** One commit reports at most the head's instruction. */
  lemma HeadReport(v: Retirement)
    requires v.rob != []
    ensures var w := RetireHead(v);
      Moved(v.rtReg, v.retiredLog, w.rtReg, w.retiredLog, 1) &&
      forall x :: x in w.retiredLog[|v.retiredLog|..] ==> x.robTag == v.rob[0].tag
  {
    ReportRetiredMoves(v.rtReg, v.retiredLog, v.rob[0].tag);
  }

  /** Head-only commit: the rounds pop exactly the ReadyPrefix of the ROB. */
  lemma {:induction false} RetireRoundsPopsHead(v: Retirement, n: nat)
    ensures RetireRounds(v, n).rob == v.rob[ReadyPrefix(v.rob, n)..]
    decreases n
  {
    if n == 0 || v.rob == [] || !v.rob[0].ready {
    } else {
      var p := ReadyPrefix(v.rob[1..], n - 1);
      RetireRoundsPopsHead(RetireHead(v), n - 1);
      assert v.rob[1..][p..] == v.rob[p + 1..];
    }
  }

  /** The RMT after the rounds: tags untouched; an entry is freed exactly
      when a committed instruction writes that register and carries the tag
      the entry names. */
  lemma {:induction false} RetireRoundsFrees(v: Retirement, n: nat)
    ensures var r := RetireRounds(v, n); var c := ReadyPrefix(v.rob, n);
      |r.rmt| == |v.rmt| &&
      forall k :: 0 <= k < |v.rmt| ==>
        r.rmt[k].robTag == v.rmt[k].robTag &&
        r.rmt[k].valid == (v.rmt[k].valid &&
                           forall j :: 0 <= j < c ==> !(v.rob[j].dest == k && v.rob[j].tag == v.rmt[k].robTag))
    decreases n
  {
    if n == 0 || v.rob == [] || !v.rob[0].ready {
    } else {
      var w := RetireHead(v);
      RetireRoundsFrees(w, n - 1);
      FreeMappingRule(v.rmt, v.rob[0].dest, v.rob[0].tag);
      var c := ReadyPrefix(v.rob, n);
      assert forall j :: 1 <= j < c ==> v.rob[j] == w.rob[j - 1];
    }
  }

  /** `log'` is `log` with instructions moved out of `rt` (leaving `rt'`)
      appended, at most `c` of them. */
  predicate Moved(rt: seq<Instruction>, log: seq<Instruction>, rt': seq<Instruction>, log': seq<Instruction>, c: nat)
  {
    |log| <= |log'| <= |log| + c && log'[..|log|] == log &&
    multiset(rt') + multiset(log'[|log|..]) == multiset(rt)
  }

  lemma MovedTrans(rt0: seq<Instruction>, log0: seq<Instruction>, rt1: seq<Instruction>, log1: seq<Instruction>,
                   rt2: seq<Instruction>, log2: seq<Instruction>, c1: nat, c2: nat)
    requires Moved(rt0, log0, rt1, log1, c1) && Moved(rt1, log1, rt2, log2, c2)
    ensures Moved(rt0, log0, rt2, log2, c1 + c2)
  {
    assert log2[..|log1|][..|log0|] == log0;
    assert log2[|log0|..] == log1[|log0|..] + log2[|log1|..];
  }

  /** The log only grows, by at most the number of commits, and what it
      gains is moved out of RT_reg. */
  lemma {:induction false} RetireRoundsMoves(v: Retirement, n: nat)
    ensures var r := RetireRounds(v, n);
      Moved(v.rtReg, v.retiredLog, r.rtReg, r.retiredLog, ReadyPrefix(v.rob, n))
    decreases n
  {
    if n == 0 || v.rob == [] || !v.rob[0].ready {
      assert v.retiredLog[|v.retiredLog|..] == [];
    } else {
      var w := RetireHead(v);
      var r := RetireRounds(w, n - 1);
      RetireRoundsMoves(w, n - 1);
      HeadReport(v);
      MovedTrans(v.rtReg, v.retiredLog, w.rtReg, w.retiredLog, r.rtReg, r.retiredLog, 1, ReadyPrefix(w.rob, n - 1));
    }
  }

  /** The instructions `added` carry tags of `tags`, in increasing order. */
  predicate TaggedFrom(added: seq<Instruction>, tags: set<nat>)
  {
    (forall x :: x in added ==> x.robTag in tags) && RobTagsAscendingIn(added)
  }

  /** The order facts of one report followed by the rest of the rounds. */
  lemma TaggedStep(log0: seq<Instruction>, log1: seq<Instruction>, log2: seq<Instruction>,
                   t: nat, later: set<nat>, all: set<nat>)
    requires |log0| <= |log1| <= |log0| + 1 && log1[..|log0|] == log0
    requires forall x :: x in log1[|log0|..] ==> x.robTag == t
    requires |log1| <= |log2| && log2[..|log1|] == log1
    requires TaggedFrom(log2[|log1|..], later)
    requires all == {t} + later && Above(t, later)
    ensures |log0| <= |log2| && TaggedFrom(log2[|log0|..], all)
  {
    var first, rest := log1[|log0|..], log2[|log1|..];
    var added := log2[|log0|..];
    assert added == first + rest;
    forall i, j | 0 <= i < j < |added| ensures added[i].robTag < added[j].robTag {
      if i < |first| {
        assert added[i] in first && added[j] == rest[j - |first|];
      } else {
        assert added[i] == rest[i - |first|] && added[j] == rest[j - |first|];
      }
    }
  }

  /** What the log gains carries committed tags, in increasing tag order
      when the ROB tags ascend. */
  lemma {:induction false} RetireRoundsOrder(v: Retirement, n: nat)
    requires TagsAscending(v.rob)
    ensures var r := RetireRounds(v, n);
      |v.retiredLog| <= |r.retiredLog| &&
      TaggedFrom(r.retiredLog[|v.retiredLog|..], TagsOf(v.rob, ReadyPrefix(v.rob, n)))
    decreases n
  {
    if n == 0 || v.rob == [] || !v.rob[0].ready {
      assert v.retiredLog[|v.retiredLog|..] == [];
    } else {
      var w := RetireHead(v);
      var r := RetireRounds(w, n - 1);
      var c := ReadyPrefix(v.rob, n);
      RetireRoundsOrder(w, n - 1);
      RetireRoundsMoves(w, n - 1);
      HeadReport(v);
      assert c - 1 == ReadyPrefix(w.rob, n - 1);
      TagsOfCons(v.rob, c);
      TagsOfAbove(v.rob, c);
      TaggedStep(v.retiredLog, w.retiredLog, r.retiredLog, v.rob[0].tag, TagsOf(w.rob, c - 1), TagsOf(v.rob, c));
    }
  }

  /** retire: the ROB loses exactly its ready prefix (at most `width`
      entries), the RMT follows the freeing rule, and the log grows by
      instructions of RT_reg with committed tags in increasing tag order. */
  lemma RetireStageCommits(v: Retirement, width: nat)
    requires TagsAscending(v.rob)
    ensures var r := RetireStage(v, width); var c := ReadyPrefix(v.rob, width);
      r.rob == v.rob[c..] &&
      |r.rmt| == |v.rmt| &&
      (forall k :: 0 <= k < |v.rmt| ==>
        r.rmt[k].robTag == v.rmt[k].robTag &&
        r.rmt[k].valid == (v.rmt[k].valid &&
                           forall j :: 0 <= j < c ==> !(v.rob[j].dest == k && v.rob[j].tag == v.rmt[k].robTag))) &&
      Moved(TickAll(v.rtReg, RT), v.retiredLog, r.rtReg, r.retiredLog, c) &&
      TaggedFrom(r.retiredLog[|v.retiredLog|..], TagsOf(v.rob, c))
  {
    var u := v.(rtReg := TickAll(v.rtReg, RT));
    RetireRoundsPopsHead(u, width);
    RetireRoundsFrees(u, width);
    RetireRoundsMoves(u, width);
    RetireRoundsOrder(u, width);
  }

  /** RT_reg holds one instruction for each ready ROB entry, carrying that
      entry's tag, and nothing else. */
  predicate RtMatchesRob(rtReg: seq<Instruction>, rob: seq<RobEntry>)
  {
    TagBag(rtReg) == multiset(TagsWhere(rob, true))
  }

  /** Every ready ROB entry has an instruction carrying its tag in RT_reg. */
  predicate Covered(rtReg: seq<Instruction>, rob: seq<RobEntry>)
  {
    forall j :: 0 <= j < |rob| && rob[j].ready ==> rob[j].tag in Tags(rtReg)
  }

  lemma MatchCovers(rtReg: seq<Instruction>, rob: seq<RobEntry>)
    requires RtMatchesRob(rtReg, rob)
    ensures Covered(rtReg, rob)
  {
    forall j | 0 <= j < |rob| && rob[j].ready ensures rob[j].tag in Tags(rtReg) {
      TagsWhereHas(rob, true, j);
      assert rob[j].tag in multiset(TagsWhere(rob, true));
    }
  }

  /** One commit of a covered head: its instruction is found in RT_reg,
      removed from it and reported, and the rest stays covered. */
  lemma HeadReportsTag(v: Retirement)
    requires v.rob != [] && v.rob[0].ready && TagsAscending(v.rob) && Covered(v.rtReg, v.rob)
    ensures Reports(v.retiredLog, RetireHead(v).retiredLog, v.rob, 1)
    ensures TagsAscending(RetireHead(v).rob) && Covered(RetireHead(v).rtReg, RetireHead(v).rob)
  {
    var t := v.rob[0].tag;
    var i :| 0 <= i < |v.rtReg| && Tags(v.rtReg)[i] == t;
    var k := IndexOfTag(v.rtReg, t).value;
    var w := RetireHead(v);
    assert w.rtReg == RemoveAt(v.rtReg, k) && w.retiredLog == v.retiredLog + [v.rtReg[k]];
    assert w.retiredLog[..|v.retiredLog|] == v.retiredLog;
    RemovedStillCovered(v.rtReg, v.rob, k);
  }

  /** Taking out the instruction carrying the head's tag leaves every other
      ready entry covered. */
  lemma RemovedStillCovered(rtReg: seq<Instruction>, rob: seq<RobEntry>, k: nat)
    requires rob != [] && k < |rtReg| && rtReg[k].robTag == rob[0].tag
    requires TagsAscending(rob) && Covered(rtReg, rob)
    ensures Covered(RemoveAt(rtReg, k), rob[1..])
  {
    var rt := RemoveAt(rtReg, k);
    forall j | 0 <= j < |rob[1..]| && rob[1..][j].ready ensures rob[1..][j].tag in Tags(rt) {
      assert rob[1..][j] == rob[j + 1];
      var i' :| 0 <= i' < |rtReg| && Tags(rtReg)[i'] == rob[j + 1].tag;
      assert i' != k;
      if i' < k {
        assert Tags(rt)[i'] == rob[j + 1].tag;
      } else {
        assert Tags(rt)[i' - 1] == rob[j + 1].tag;
      }
    }
  }

  /** `log'` is `log` followed by one instruction for each of the first `c`
      ROB entries, in ROB order, each carrying its entry's tag. */
  predicate Reports(log: seq<Instruction>, log': seq<Instruction>, rob: seq<RobEntry>, c: nat)
  {
    c <= |rob| && |log'| == |log| + c && log'[..|log|] == log &&
    forall j :: 0 <= j < c ==> log'[|log| + j].robTag == rob[j].tag
  }

  lemma ReportsStep(log0: seq<Instruction>, log1: seq<Instruction>, log2: seq<Instruction>, rob: seq<RobEntry>, c: nat)
    requires rob != [] && Reports(log0, log1, rob, 1) && Reports(log1, log2, rob[1..], c)
    ensures Reports(log0, log2, rob, c + 1)
  {
    var L := |log0|;
    assert log2[..L] == log2[..L + 1][..L];
    forall j | 0 <= j < c + 1 ensures log2[L + j].robTag == rob[j].tag {
      if j == 0 {
        assert log2[L] == log2[..L + 1][L];
      } else {
        assert rob[j] == rob[1..][j - 1];
      }
    }
  }

  /** Splitting off a ready prefix whose tags are those of `added`. */
  lemma ReadyPrefixTags(rob: seq<RobEntry>, added: seq<Instruction>, c: nat)
    requires c <= |rob| && (forall j :: 0 <= j < c ==> rob[j].ready)
    requires |added| == c && forall j :: 0 <= j < c ==> added[j].robTag == rob[j].tag
    ensures multiset(TagsWhere(rob, true)) == TagBag(added) + multiset(TagsWhere(rob[c..], true))
    ensures TagsWhere(rob, false) == TagsWhere(rob[c..], false)
  {
    var done, left := rob[..c], rob[c..];
    assert rob == done + left;
    TagsWhereAll(done, true);
    TagsWhereAppend(done, left, false);
    TagsWhereAppend(done, left, true);
    assert TagsWhere(done, true) == Tags(added);
  }

  /** Committing the first `c` entries, all ready, while moving one
      instruction per entry with its tag out of RT_reg keeps RT_reg matching
      the ROB, and leaves the waiting entries as they were. */
  lemma CommitKeepsMatch(rt: seq<Instruction>, rob: seq<RobEntry>, rt': seq<Instruction>, added: seq<Instruction>, c: nat)
    requires c <= |rob| && (forall j :: 0 <= j < c ==> rob[j].ready)
    requires RtMatchesRob(rt, rob) && multiset(rt') + multiset(added) == multiset(rt)
    requires |added| == c && forall j :: 0 <= j < c ==> added[j].robTag == rob[j].tag
    ensures RtMatchesRob(rt', rob[c..]) && TagsWhere(rob[c..], false) == TagsWhere(rob, false)
  {
    ReadyPrefixTags(rob, added, c);
    TagsPerm(rt' + added, rt);
    TagsAppend(rt', added);
    BagCancel(TagBag(rt'), TagBag(added), TagBag(rt), multiset(TagsWhere(rob[c..], true)));
  }

  /** The rounds, when RT_reg matches the ROB: one report per commit, the
      j-th carrying the tag of the j-th committed entry. */
  lemma {:induction false} RetireRoundsReports(v: Retirement, n: nat)
    requires TagsAscending(v.rob) && Covered(v.rtReg, v.rob)
    ensures Reports(v.retiredLog, RetireRounds(v, n).retiredLog, v.rob, ReadyPrefix(v.rob, n))
    decreases n
  {
    if n == 0 || v.rob == [] || !v.rob[0].ready {
    } else {
      var w := RetireHead(v);
      HeadReportsTag(v);
      RetireRoundsReports(w, n - 1);
      ReportsStep(v.retiredLog, w.retiredLog, RetireRounds(w, n - 1).retiredLog, v.rob, ReadyPrefix(w.rob, n - 1));
    }
  }

  /** retire, when RT_reg matches the ROB: the log gains exactly one
      instruction per committed entry, in ROB order, and the match holds
      afterwards. */
  lemma RetireStageReports(v: Retirement, width: nat)
    requires TagsAscending(v.rob) && RtMatchesRob(v.rtReg, v.rob)
    ensures var r := RetireStage(v, width); var c := ReadyPrefix(v.rob, width);
      |r.retiredLog| == |v.retiredLog| + c && r.retiredLog[..|v.retiredLog|] == v.retiredLog &&
      (forall j :: 0 <= j < c ==> r.retiredLog[|v.retiredLog| + j].robTag == v.rob[j].tag) &&
      RtMatchesRob(r.rtReg, r.rob) && TagsWhere(r.rob, false) == TagsWhere(v.rob, false)
  {
    var u := v.(rtReg := TickAll(v.rtReg, RT));
    assert Tags(u.rtReg) == Tags(v.rtReg);
    MatchCovers(u.rtReg, u.rob);
    RetireRoundsReports(u, width);
    RetireRoundsMoves(u, width);
    RetireRoundsPopsHead(u, width);
    var r := RetireRounds(u, width);
    CommitKeepsMatch(u.rtReg, u.rob, r.rtReg, r.retiredLog[|v.retiredLog|..], ReadyPrefix(u.rob, width));
  }
}
