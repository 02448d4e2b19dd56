/** The bookkeeping the pipeline keeps between an instruction and its ROB
    entry, and its preservation by every stage: a ROB entry that is not
    ready has exactly one renamed instruction still to write back carrying
    its tag, a ready one exactly one instruction in RT_reg, and there are no
    other tags; ages double as ROB tags; and the log of retired instructions
    grows in increasing tag order. */
module TrackingProps {
  import opened Records
  import opened Seqs
  import opened Stages
  import opened Tracking
  import opened RetireProps
  import opened CompleteProps
  import opened IssueProps
  import opened RenameProps
  import opened PipelineProps

  /** The tags of the renamed instructions that have not written back yet:
      RR_reg, DI_reg, IQ_reg, execute_list and WB_reg. */
  function InFlightTags(s: State): multiset<nat>
  {
    TagBag(s.rrReg) + TagBag(s.diReg) + TagBag(s.iqReg) + TagBag(s.executeList) + TagBag(s.wbReg)
  }

  /** Every renamed instruction carries its age as its ROB tag. */
  predicate AgesAreTags(s: State)
  {
    AgeIsTag(s.rrReg) && AgeIsTag(s.diReg) && AgeIsTag(s.iqReg) && AgeIsTag(s.executeList) &&
    AgeIsTag(s.wbReg) && AgeIsTag(s.rtReg) && AgeIsTag(s.retiredLog)
  }

  /** Every retired instruction is older than ROB_tail and than every ROB entry. */
  predicate LogBefore(log: seq<Instruction>, rob: seq<RobEntry>, tail: nat)
  {
    (forall x :: x in log ==> x.robTag < tail) &&
    (forall x, k :: x in log && 0 <= k < |rob| ==> x.robTag < rob[k].tag)
  }

  /** The bookkeeping: the waiting ROB entries are exactly the in-flight
      instructions and the ready ones exactly RT_reg, counted by tag;
      renamed instructions carry their age as their tag; DE_reg and RN_reg
      hold the next ages from ROB_tail on, up to the number of lines read;
      the log ascends in tag order and precedes the ROB. */
  predicate Tracked(s: State)
  {
    InFlightTags(s) == multiset(TagsWhere(s.rob, false)) &&
    RtMatchesRob(s.rtReg, s.rob) &&
    AgesAreTags(s) &&
    AgesFrom(s.rnReg, s.robTail) && AgesFrom(s.deReg, s.robTail + |s.rnReg|) &&
    s.totalRead == s.robTail + |s.rnReg| + |s.deReg| &&
    RobTagsAscendingIn(s.retiredLog) && LogBefore(s.retiredLog, s.rob, s.robTail)
  }

  // ---------------------------------------------------------------- helpers

  lemma TickIds(buf: seq<Instruction>, st: Stage)
    ensures SameIds(buf, TickAll(buf, st))
  {
  }

  lemma WakeIds(buf: seq<Instruction>, tags: set<int>)
    ensures SameIds(buf, WakeAll(buf, tags))
  {
  }

  lemma ReadIds(buf: seq<Instruction>, rob: seq<RobEntry>)
    ensures SameIds(buf, ReadAll(buf, rob))
  {
  }

  lemma AdvanceIds(buf: seq<Instruction>)
    ensures SameIds(buf, AdvanceAll(buf))
  {
  }

  /** What is split off a buffer keeps ages equal to tags. */
  lemma AgeIsTagPart(buf: seq<Instruction>, part: seq<Instruction>, other: multiset<Instruction>)
    requires multiset(part) + other == multiset(buf) && AgeIsTag(buf)
    ensures AgeIsTag(part)
  {
    forall x | x in part ensures x.age == x.robTag {
      SubMember(buf, part, other, x);
    }
  }

  /** Moving instructions between buffers moves their tags. */
  lemma BagsMoved(buf: seq<Instruction>, part: seq<Instruction>, rest: seq<Instruction>)
    requires multiset(part) + multiset(rest) == multiset(buf)
    ensures TagBag(part) + TagBag(rest) == TagBag(buf)
  {
    TagsPerm(part + rest, buf);
    TagsAppend(part, rest);
  }

  /** The bag of five buffers when two neighbours trade contents. */
  lemma BagsTrade(a: multiset<nat>, b: multiset<nat>, c: multiset<nat>, d: multiset<nat>, e: multiset<nat>,
                  b': multiset<nat>, c': multiset<nat>)
    requires b' + c' == b + c
    ensures a + b' + c' + d + e == a + b + c + d + e
  {
    forall y ensures (a + b' + c' + d + e)[y] == (a + b + c + d + e)[y] {
      assert (b' + c')[y] == (b + c)[y];
    }
  }

  /** The bag of five buffers when part of the fourth moves to the end of the fifth. */
  lemma BagsComplete(a: multiset<nat>, b: multiset<nat>, c: multiset<nat>, d: multiset<nat>, e: multiset<nat>,
                     d': multiset<nat>, f: multiset<nat>)
    requires d' + f == d
    ensures a + b + c + d' + (e + f) == a + b + c + d + e
  {
    forall y ensures (a + b + c + d' + (e + f))[y] == (a + b + c + d + e)[y] {
      assert (d' + f)[y] == d[y];
    }
  }

  /** The bag of five buffers when part of the third moves to the end of the fourth. */
  lemma BagsIssue(a: multiset<nat>, b: multiset<nat>, c: multiset<nat>, d: multiset<nat>, e: multiset<nat>,
                  c': multiset<nat>, f: multiset<nat>)
    requires c' + f == c
    ensures a + b + c' + (d + f) + e == a + b + c + d + e
  {
    forall y ensures (a + b + c' + (d + f) + e)[y] == (a + b + c + d + e)[y] {
      assert (c' + f)[y] == c[y];
    }
  }

  /** The bag of five buffers when the first grows by `n`. */
  lemma BagsGrow(a: multiset<nat>, b: multiset<nat>, c: multiset<nat>, d: multiset<nat>, e: multiset<nat>,
                 n: multiset<nat>, total: multiset<nat>)
    requires a + b + c + d + e == total
    ensures (a + n) + b + c + d + e == total + n
  {
    forall y ensures ((a + n) + b + c + d + e)[y] == (total + n)[y] {
      assert (a + b + c + d + e)[y] == total[y];
    }
  }

  /** The bag of five buffers when the last is emptied onto `rest`. */
  lemma BagsDrain(a: multiset<nat>, b: multiset<nat>, c: multiset<nat>, d: multiset<nat>, e: multiset<nat>)
    ensures a + b + c + d + e == (a + b + c + d) + e
    ensures a + b + c + d + multiset{} == a + b + c + d
  {
  }

  // ---------------------------------------------------------------- per stage

  /** Appending reports of the ready ROB prefix keeps the log ascending ... */
  lemma LogExtendsAscending(log: seq<Instruction>, log': seq<Instruction>, rob: seq<RobEntry>, tail: nat, c: nat)
    requires RobTagsAscendingIn(log) && LogBefore(log, rob, tail)
    requires TagsAscending(rob) && Reports(log, log', rob, c)
    ensures RobTagsAscendingIn(log')
  {
    var L := |log|;
    forall i, j | 0 <= i < j < |log'| ensures log'[i].robTag < log'[j].robTag {
      if j < L {
        assert log'[i] == log'[..L][i] && log'[j] == log'[..L][j];
      } else if i < L {
        var j' := j - L;
        assert log'[L + j'].robTag == rob[j'].tag;
        assert log'[i] == log'[..L][i] && log[i] in log;
      } else {
        var i', j' := i - L, j - L;
        assert log'[L + i'].robTag == rob[i'].tag && log'[L + j'].robTag == rob[j'].tag;
      }
    }
  }

  /** ... and before what is left of the ROB. */
  lemma LogExtendsBefore(log: seq<Instruction>, log': seq<Instruction>, rob: seq<RobEntry>, tail: nat, c: nat)
    requires LogBefore(log, rob, tail)
    requires TagsAscending(rob) && TagsBelow(rob, tail) && Reports(log, log', rob, c)
    ensures LogBefore(log', rob[c..], tail)
  {
    var L := |log|;
    forall x | x in log'
      ensures x.robTag < tail && forall k :: 0 <= k < |rob[c..]| ==> x.robTag < rob[c..][k].tag
    {
      var i :| 0 <= i < |log'| && log'[i] == x;
      if i < L {
        assert x == log'[..L][i] && x in log;
      } else {
        var i' := i - L;
        assert log'[L + i'].robTag == rob[i'].tag;
        forall k | 0 <= k < |rob[c..]| ensures x.robTag < rob[c..][k].tag {
          assert rob[c..][k] == rob[c + k];
        }
      }
    }
  }

  lemma LogExtends(log: seq<Instruction>, log': seq<Instruction>, rob: seq<RobEntry>, tail: nat, c: nat)
    requires RobTagsAscendingIn(log) && LogBefore(log, rob, tail)
    requires TagsAscending(rob) && TagsBelow(rob, tail) && Reports(log, log', rob, c)
    ensures RobTagsAscendingIn(log') && LogBefore(log', rob[c..], tail)
  {
    LogExtendsAscending(log, log', rob, tail, c);
    LogExtendsBefore(log, log', rob, tail, c);
  }

  /** retire moves instructions from RT_reg to the log, ages and tags intact. */
  lemma RetireAges(s: State)
    requires TagsAscending(s.rob) && AgeIsTag(s.rtReg) && AgeIsTag(s.retiredLog)
    ensures AgeIsTag(Retire(s).rtReg) && AgeIsTag(Retire(s).retiredLog)
  {
    var v := Retirement(s.rtReg, s.rob, s.rmt, s.retiredLog);
    var r := RetireStage(v, s.width);
    RetireStageCommits(v, s.width);
    var rt := TickAll(s.rtReg, RT);
    var added := r.retiredLog[|s.retiredLog|..];
    TickIds(s.rtReg, RT);
    SameIdsKeep(s.rtReg, rt);
    AgeIsTagPart(rt, r.rtReg, multiset(added));
    AgeIsTagPart(rt, added, multiset(r.rtReg));
    assert r.retiredLog == s.retiredLog + added;
  }

  /** retire appends to the log in increasing tag order, before what is
      left of the ROB. */
  lemma RetireStageLogOrder(v: Retirement, tail: nat, width: nat)
    requires TagsAscending(v.rob) && TagsBelow(v.rob, tail) && RtMatchesRob(v.rtReg, v.rob)
    requires RobTagsAscendingIn(v.retiredLog) && LogBefore(v.retiredLog, v.rob, tail)
    ensures var r := RetireStage(v, width);
      Reports(v.retiredLog, r.retiredLog, v.rob, ReadyPrefix(v.rob, width)) &&
      RobTagsAscendingIn(r.retiredLog) && LogBefore(r.retiredLog, r.rob, tail) &&
      RtMatchesRob(r.rtReg, r.rob) && TagsWhere(r.rob, false) == TagsWhere(v.rob, false)
  {
    var r := RetireStage(v, width);
    var c := ReadyPrefix(v.rob, width);
    RetireStageReports(v, width);
    assert Reports(v.retiredLog, r.retiredLog, v.rob, c);
    RetireRoundsPopsHead(v.(rtReg := TickAll(v.rtReg, RT)), width);
    LogExtends(v.retiredLog, r.retiredLog, v.rob, tail, c);
  }

  lemma RetireLogOrder(s: State)
    requires TagsAscending(s.rob) && TagsBelow(s.rob, s.robTail) && RtMatchesRob(s.rtReg, s.rob)
    requires RobTagsAscendingIn(s.retiredLog) && LogBefore(s.retiredLog, s.rob, s.robTail)
    ensures var s' := Retire(s);
      Reports(s.retiredLog, s'.retiredLog, s.rob, ReadyPrefix(s.rob, s.width)) &&
      RobTagsAscendingIn(s'.retiredLog) && LogBefore(s'.retiredLog, s'.rob, s'.robTail) &&
      RtMatchesRob(s'.rtReg, s'.rob) && TagsWhere(s'.rob, false) == TagsWhere(s.rob, false)
  {
    RetireStageLogOrder(Retirement(s.rtReg, s.rob, s.rmt, s.retiredLog), s.robTail, s.width);
  }

  lemma RetireKeepsTracked(s: State)
    requires TagsAscending(s.rob) && TagsBelow(s.rob, s.robTail) && Tracked(s)
    ensures Tracked(Retire(s))
    ensures var s' := Retire(s); |s.retiredLog| <= |s'.retiredLog| && s'.retiredLog[..|s.retiredLog|] == s.retiredLog
  {
    RetireAges(s);
    RetireLogOrder(s);
  }

  lemma WriteBackKeepsTracked(s: State)
    requires TagsAscending(s.rob) && Tracked(s)
    ensures Tracked(WriteBack(s))
  {
    var v := Completion(s.wbReg, s.rtReg, s.rob);
    var wb := TickAll(s.wbReg, WB);
    var r := WriteBackStage(v);
    WriteBackStageMarks(v);
    TickIds(s.wbReg, WB);
    SameIdsKeep(s.wbReg, wb);
    var rest := TagBag(s.rrReg) + TagBag(s.diReg) + TagBag(s.iqReg) + TagBag(s.executeList);
    BagsDrain(TagBag(s.rrReg), TagBag(s.diReg), TagBag(s.iqReg), TagBag(s.executeList), TagBag(s.wbReg));
    MarkAllReadyMoves(s.rob, wb, rest);
    TagsAppend(s.rtReg, wb);
    assert TagBag([]) == multiset{};
  }

  /** execute's bag of in-flight tags: what leaves execute_list enters WB_reg. */
  lemma ExecuteBags(s: State)
    requires NoneFlagged(s.executeList)
    ensures InFlightTags(Execute(s)) == InFlightTags(s)
  {
    var v := Execution(s.executeList, s.wbReg, s.iqReg, s.diReg, s.rrReg);
    var r := ExecuteStage(v);
    var ex := TickAll(s.executeList, EX);
    var m := AdvanceAll(ex);
    ExecuteStageCompletes(v);
    var added := r.wbReg[|s.wbReg|..];
    assert r.wbReg == s.wbReg + added;
    TickIds(s.executeList, EX);
    AdvanceIds(ex);
    assert SameIds(s.executeList, m);
    SameIdsKeep(s.executeList, m);
    BagsMoved(m, r.executeList, added);
    TagsAppend(s.wbReg, added);
    var woken := WokenTags(m);
    WakeIds(s.iqReg, woken);
    WakeIds(s.diReg, woken);
    WakeIds(s.rrReg, woken);
    SameIdsKeep(s.iqReg, r.iqReg);
    SameIdsKeep(s.diReg, r.diReg);
    SameIdsKeep(s.rrReg, r.rrReg);
    BagsComplete(TagBag(s.rrReg), TagBag(s.diReg), TagBag(s.iqReg), TagBag(s.executeList), TagBag(s.wbReg),
                 TagBag(r.executeList), TagBag(added));
  }

  /** execute changes no age and no tag. */
  lemma ExecuteAges(s: State)
    requires NoneFlagged(s.executeList) && AgesAreTags(s)
    ensures AgesAreTags(Execute(s))
  {
    var v := Execution(s.executeList, s.wbReg, s.iqReg, s.diReg, s.rrReg);
    var r := ExecuteStage(v);
    var ex := TickAll(s.executeList, EX);
    var m := AdvanceAll(ex);
    ExecuteStageCompletes(v);
    var added := r.wbReg[|s.wbReg|..];
    assert r.wbReg == s.wbReg + added;
    TickIds(s.executeList, EX);
    AdvanceIds(ex);
    assert SameIds(s.executeList, m);
    SameIdsKeep(s.executeList, m);
    AgeIsTagPart(m, r.executeList, multiset(added));
    AgeIsTagPart(m, added, multiset(r.executeList));
    var woken := WokenTags(m);
    WakeIds(s.iqReg, woken);
    WakeIds(s.diReg, woken);
    WakeIds(s.rrReg, woken);
    SameIdsKeep(s.iqReg, r.iqReg);
    SameIdsKeep(s.diReg, r.diReg);
    SameIdsKeep(s.rrReg, r.rrReg);
  }

  lemma ExecuteKeepsTracked(s: State)
    requires NoneFlagged(s.executeList) && Tracked(s)
    ensures Tracked(Execute(s))
  {
    ExecuteBags(s);
    ExecuteAges(s);
  }

  lemma IssueKeepsTracked(s: State)
    requires Tracked(s)
    ensures Tracked(Issue(s))
  {
    var iq := TickAll(s.iqReg, IS);
    var (iq', ex') := IssueStage(s.iqReg, s.executeList, s.width);
    IssueStageSelects(s.iqReg, s.executeList, s.width);
    var issued := ex'[|s.executeList|..];
    assert ex' == s.executeList + issued;
    TickIds(s.iqReg, IS);
    SameIdsKeep(s.iqReg, iq);
    BagsMoved(iq, iq', issued);
    AgeIsTagPart(iq, iq', multiset(issued));
    AgeIsTagPart(iq, issued, multiset(iq'));
    TagsAppend(s.executeList, issued);
    BagsIssue(TagBag(s.rrReg), TagBag(s.diReg), TagBag(s.iqReg), TagBag(s.executeList), TagBag(s.wbReg),
              TagBag(iq'), TagBag(issued));
  }

  lemma DispatchKeepsTracked(s: State)
    requires Tracked(s)
    ensures Tracked(Dispatch(s))
  {
    var di := TickAll(s.diReg, DI);
    var (di', iq') := DispatchStage(s.diReg, s.iqReg, s.iqSize);
    DispatchStageMoves(s.diReg, s.iqReg, s.iqSize);
    TickIds(s.diReg, DI);
    SameIdsKeep(s.diReg, di);
    TagsAppend(iq', di');
    TagsAppend(s.iqReg, di);
    BagsTrade(TagBag(s.rrReg), TagBag(s.diReg), TagBag(s.iqReg), TagBag(s.executeList), TagBag(s.wbReg),
              TagBag(di'), TagBag(iq'));
  }

  lemma RegisterReadKeepsTracked(s: State)
    requires Tracked(s)
    ensures Tracked(RegisterRead(s))
  {
    var rr := TickAll(s.rrReg, RR);
    var (rr', di') := RegisterReadStage(s.rrReg, s.diReg, s.rob);
    TickIds(s.rrReg, RR);
    SameIdsKeep(s.rrReg, rr);
    ReadIds(rr, s.rob);
    SameIdsKeep(rr, ReadAll(rr, s.rob));
    TagsAppend(s.diReg, ReadAll(rr, s.rob));
    assert TagBag([]) == multiset{};
    BagsTrade(multiset{}, TagBag(s.rrReg), TagBag(s.diReg), TagBag(s.iqReg) + TagBag(s.executeList), TagBag(s.wbReg),
              TagBag(rr'), TagBag(di'));
  }

  /** The renamed instructions enter RR_reg with the tags of the new ROB
      entries, which are all waiting, and with their ages as tags. */
  /** The entries rename appends to the ROB wait under the tags from the
      old ROB_tail on. */
  lemma RenamedRobTags(w: Renaming, r: Renaming, c: nat)
    requires RenamedInto(w, r, c)
    ensures var e := r.rob[|w.rob|..];
      r.rob == w.rob + e && TagsWhere(e, true) == [] &&
      TagsWhere(e, false) == seq(c, k => w.robTail + k)
  {
    var e := r.rob[|w.rob|..];
    assert r.rob == w.rob + e;
    forall k | 0 <= k < |e| ensures !e[k].ready && e[k].tag == w.robTail + k {
      assert e[k] == r.rob[|w.rob| + k];
      assert r.rob[|w.rob| + k] == RobEntry(w.rnReg[k].pc, false, w.rnReg[k].dest, w.robTail + k);
    }
    TagsWhereAll(e, false);
  }

  /** The instructions rename appends to RR_reg carry the tags from the old
      ROB_tail on, and the ages they had in RN_reg. */
  lemma RenamedRrIds(w: Renaming, r: Renaming, c: nat)
    requires RenamedInto(w, r, c)
    ensures var n := r.rrReg[|w.rrReg|..];
      r.rrReg == w.rrReg + n && |n| == c &&
      forall k :: 0 <= k < c ==> n[k].robTag == w.robTail + k && n[k].age == w.rnReg[k].age
  {
    var n := r.rrReg[|w.rrReg|..];
    assert r.rrReg == w.rrReg + n;
    forall k | 0 <= k < c ensures n[k].robTag == w.robTail + k && n[k].age == w.rnReg[k].age {
      assert n[k] == r.rrReg[|w.rrReg| + k];
      assert Tagged(n[k], w.rnReg[k], w.robTail + k);
    }
  }

  /** Instructions that carry consecutive tags from `first` and the ages of
      a buffer whose ages run from `first` each carry their own age as tag. */
  lemma ConsecutiveTags(n: seq<Instruction>, rn: seq<Instruction>, first: nat)
    requires |n| <= |rn| && AgesFrom(rn, first)
    requires forall k :: 0 <= k < |n| ==> n[k].robTag == first + k && n[k].age == rn[k].age
    ensures Tags(n) == seq(|n|, k => first + k) && AgeIsTag(n)
  {
    forall x | x in n ensures x.age == x.robTag {
      var k :| 0 <= k < |n| && n[k] == x;
    }
  }

  lemma RenamedBags(w: Renaming, r: Renaming, c: nat)
    requires RenamedInto(w, r, c) && AgesFrom(w.rnReg, w.robTail)
    ensures var e, n := r.rob[|w.rob|..], r.rrReg[|w.rrReg|..];
      r.rob == w.rob + e && r.rrReg == w.rrReg + n &&
      TagBag(n) == multiset(TagsWhere(e, false)) && TagsWhere(e, true) == [] && AgeIsTag(n)
  {
    RenamedRobTags(w, r, c);
    RenamedRrIds(w, r, c);
    ConsecutiveTags(r.rrReg[|w.rrReg|..], w.rnReg, w.robTail);
  }

  /** Renaming keeps the log before the ROB: new entries carry tags from
      the old ROB_tail on. */
  lemma RenamedLog(w: Renaming, r: Renaming, c: nat, log: seq<Instruction>)
    requires RenamedInto(w, r, c) && LogBefore(log, w.rob, w.robTail)
    ensures LogBefore(log, r.rob, r.robTail)
  {
    forall x, k | x in log && 0 <= k < |r.rob| ensures x.robTag < r.rob[k].tag {
      if k < |w.rob| {
        assert r.rob[k] == r.rob[..|w.rob|][k];
      } else {
        var k' := k - |w.rob|;
        assert r.rob[|w.rob| + k'] == RobEntry(w.rnReg[k'].pc, false, w.rnReg[k'].dest, w.robTail + k');
      }
    }
  }

  /** rename's new ROB entries wait under exactly the tags of the
      instructions it appends to RR_reg; RT_reg still matches the ready
      entries. */
  lemma RenameKeepsBags(s: State)
    requires |s.rob| <= s.robSize && TagsAscending(s.rob) && TagsBelow(s.rob, s.robTail)
    requires AgesFrom(s.rnReg, s.robTail)
    requires InFlightTags(s) == multiset(TagsWhere(s.rob, false)) && RtMatchesRob(s.rtReg, s.rob)
    ensures InFlightTags(Rename(s)) == multiset(TagsWhere(Rename(s).rob, false))
    ensures RtMatchesRob(Rename(s).rtReg, Rename(s).rob)
    ensures AgeIsTag(s.rrReg) ==> AgeIsTag(Rename(s).rrReg)
  {
    var v := Renaming(s.rnReg, s.rrReg, s.rob, s.rmt, s.robTail);
    var w := v.(rnReg := TickAll(v.rnReg, RN));
    var r := RenameStage(v, s.robSize, s.width);
    RenameStageRenames(v, s.robSize, s.width);
    var c := |r.rob| - |s.rob|;
    TickIds(s.rnReg, RN);
    RenamedBags(w, r, c);
    var e, n := r.rob[|w.rob|..], r.rrReg[|w.rrReg|..];
    TagsWhereAppend(s.rob, e, false);
    TagsWhereAppend(s.rob, e, true);
    TagsAppend(s.rrReg, n);
    BagsGrow(TagBag(s.rrReg), TagBag(s.diReg), TagBag(s.iqReg), TagBag(s.executeList), TagBag(s.wbReg),
             TagBag(n), multiset(TagsWhere(s.rob, false)));
  }

  /** What rename leaves in RN_reg keeps the next ages from the new ROB_tail
      on; lines read are still accounted for. */
  lemma RenameKeepsAges(s: State)
    requires |s.rob| <= s.robSize && TagsAscending(s.rob) && TagsBelow(s.rob, s.robTail)
    requires AgesFrom(s.rnReg, s.robTail) && AgesFrom(s.deReg, s.robTail + |s.rnReg|)
    requires s.totalRead == s.robTail + |s.rnReg| + |s.deReg|
    ensures var s' := Rename(s);
      AgesFrom(s'.rnReg, s'.robTail) && AgesFrom(s'.deReg, s'.robTail + |s'.rnReg|) &&
      s'.totalRead == s'.robTail + |s'.rnReg| + |s'.deReg|
  {
    var v := Renaming(s.rnReg, s.rrReg, s.rob, s.rmt, s.robTail);
    var w := v.(rnReg := TickAll(v.rnReg, RN));
    var r := RenameStage(v, s.robSize, s.width);
    RenameStageRenames(v, s.robSize, s.width);
    var c := |r.rob| - |s.rob|;
    TickIds(s.rnReg, RN);
    forall j | 0 <= j < |r.rnReg| ensures r.rnReg[j].age == r.robTail + j {
      assert r.rnReg[j] == w.rnReg[c + j];
    }
  }

  lemma RenameKeepsTracked(s: State)
    requires |s.rob| <= s.robSize && TagsAscending(s.rob) && TagsBelow(s.rob, s.robTail) && Tracked(s)
    ensures Tracked(Rename(s))
  {
    RenameKeepsBags(s);
    RenameKeepsAges(s);
    var v := Renaming(s.rnReg, s.rrReg, s.rob, s.rmt, s.robTail);
    RenameStageRenames(v, s.robSize, s.width);
    RenamedLog(v.(rnReg := TickAll(v.rnReg, RN)), RenameStage(v, s.robSize, s.width),
               |RenameStage(v, s.robSize, s.width).rob| - |s.rob|, s.retiredLog);
  }

  lemma DecodeKeepsTracked(s: State)
    requires Tracked(s)
    ensures Tracked(Decode(s))
  {
    var s' := Decode(s);
    var de := TickAll(s.deReg, DE);
    TickIds(s.deReg, DE);
    assert InFlightTags(s') == InFlightTags(s);
    if |s.rnReg| != 0 || |de| == 0 {
      assert s'.rnReg == s.rnReg && s'.deReg == de;
    } else {
      assert s'.rnReg == [] + de && s'.deReg == [];
    }
  }

  lemma FetchKeepsTracked(s: State, records: seq<TraceRecord>, pos: nat)
    requires Tracked(s) && pos <= |records|
    ensures Tracked(Fetch(s, records, pos).0)
  {
    var v := Fetching(s.deReg, s.totalRead, s.traceDepleted, pos);
    FetchStageReads(v, records, s.width, s.cycleCount);
  }

  /** A processor configured by config_proc keeps the bookkeeping trivially. */
  lemma ConfigTracked(robSize: nat, iqSize: nat, width: nat)
    ensures Tracked(Config(FreshState(), robSize, iqSize, width))
  {
    assert TagBag([]) == multiset{};
  }
}
