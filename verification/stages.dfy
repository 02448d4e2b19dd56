/** What each pipeline stage does to the processor state, as functions from
    the state before the call to the state after it. The methods of
    Proc.Processor are proved to compute exactly these. */
module Stages {
  import opened Records
  import opened Seqs

  /** Every field of a Processor, plus the output sink of print_timing. */
  datatype State = State(
    robSize: nat, iqSize: nat, width: nat,
    cycleCount: nat, traceDepleted: bool, robTail: nat, totalRead: nat,
    deReg: seq<Instruction>, rnReg: seq<Instruction>, rrReg: seq<Instruction>,
    diReg: seq<Instruction>, iqReg: seq<Instruction>, executeList: seq<Instruction>,
    wbReg: seq<Instruction>, rtReg: seq<Instruction>,
    rob: seq<RobEntry>, rmt: seq<RmtEntry>,
    retiredLog: seq<Instruction>)

  /** A default-constructed processor (the sizes are left unset by the source; here 0). */
  function FreshState(): State
  {
    State(0, 0, 0, 0, false, 0, 0, [], [], [], [], [], [], [], [], [], [], [])
  }

  /** Register fields of not-yet-renamed instructions index the RMT (or are NoReg). */
  predicate RegsMapped(buf: seq<Instruction>, n: nat)
  {
    forall k :: 0 <= k < |buf| ==>
      NoReg <= buf[k].dest < n && NoReg <= buf[k].src1 < n && NoReg <= buf[k].src2 < n
  }

  /** ROB destinations index the RMT (or are NoReg). */
  predicate DestsMapped(rob: seq<RobEntry>, n: nat)
  {
    forall k :: 0 <= k < |rob| ==> NoReg <= rob[k].dest < n
  }

  /** ROB tags strictly increase from head to tail. */
  predicate TagsAscending(rob: seq<RobEntry>)
  {
    forall i, j :: 0 <= i < j < |rob| ==> rob[i].tag < rob[j].tag
  }

  // ---------------------------------------------------------------- config_proc

  function Config(s: State, robSize: nat, iqSize: nat, width: nat): (r: State)
    ensures |r.rmt| == |s.rmt| + RmtSize
    ensures r.rmt[..|s.rmt|] == s.rmt
    ensures forall k :: |s.rmt| <= k < |r.rmt| ==> !r.rmt[k].valid && r.rmt[k].robTag == 0
  {
    s.(robSize := robSize, iqSize := iqSize, width := width,
       rmt := s.rmt + seq(RmtSize, _ => RmtEntry(false, 0)))
  }

  // ---------------------------------------------------------------- lookups by tag

  /** Position of the first ROB entry carrying `tag`, if any. */
  function RobIndexOf(rob: seq<RobEntry>, tag: int): (r: Option<nat>)
    ensures r.Some? ==> r.value < |rob|
  {
    if rob == [] then None
    else if rob[0].tag == tag then Some(0)
    else match RobIndexOf(rob[1..], tag)
      case None => None
      case Some(k) => Some(k + 1)
  }

  /** RobIndexOf finds the first entry carrying `tag`, and finds none exactly
      when no entry carries it. */
  lemma {:induction false} RobIndexOfFirst(rob: seq<RobEntry>, tag: int)
    ensures var r := RobIndexOf(rob, tag);
      (r.Some? ==> rob[r.value].tag == tag && forall j :: 0 <= j < r.value ==> rob[j].tag != tag) &&
      (r.None? <==> forall j :: 0 <= j < |rob| ==> rob[j].tag != tag)
  {
    if rob != [] && rob[0].tag != tag {
      RobIndexOfFirst(rob[1..], tag);
      assert forall j :: 1 <= j < |rob| ==> rob[j] == rob[1..][j - 1];
    }
  }

  /** The scan of the ROB from position `j` for the first entry carrying
      `tag`: that entry's ready flag, or `absent` when no entry from `j` on
      carries the tag. */
  function ReadyFrom(rob: seq<RobEntry>, tag: int, j: nat, absent: bool): bool
    decreases |rob| - j
  {
    if j >= |rob| then absent
    else if rob[j].tag == tag then rob[j].ready
    else ReadyFrom(rob, tag, j + 1, absent)
  }

  /** ReadyFrom reports the first entry from `j` on that carries `tag`. */
  lemma {:induction false} ReadyFromFirst(rob: seq<RobEntry>, tag: int, j: nat, absent: bool)
    ensures (forall k :: j <= k < |rob| ==> rob[k].tag != tag) ==> ReadyFrom(rob, tag, j, absent) == absent
    ensures forall k :: j <= k < |rob| && rob[k].tag == tag && (forall m :: j <= m < k ==> rob[m].tag != tag) ==>
      ReadyFrom(rob, tag, j, absent) == rob[k].ready
    decreases |rob| - j
  {
    if j < |rob| && rob[j].tag != tag {
      ReadyFromFirst(rob, tag, j + 1, absent);
    }
  }

  /** A source holding `tag` is ready when the first ROB entry carrying the
      tag is ready, or when no ROB entry carries it any more (its producer
      retired). */
  function TagReady(rob: seq<RobEntry>, tag: int): bool
  {
    ReadyFrom(rob, tag, 0, true)
  }

  /** TagReady in terms of RobIndexOf. */
  lemma TagReadyIndex(rob: seq<RobEntry>, tag: int)
    ensures TagReady(rob, tag) == match RobIndexOf(rob, tag) case None => true case Some(k) => rob[k].ready
  {
    RobIndexOfFirst(rob, tag);
    ReadyFromFirst(rob, tag, 0, true);
  }

  /** Position of the first instruction of `buf` whose ROB tag is `tag`, if any. */
  function IndexOfTag(buf: seq<Instruction>, tag: nat): (r: Option<nat>)
    ensures r.Some? ==> r.value < |buf| && buf[r.value].robTag == tag
    ensures r.Some? ==> forall j :: 0 <= j < r.value ==> buf[j].robTag != tag
    ensures r.None? <==> forall j :: 0 <= j < |buf| ==> buf[j].robTag != tag
  {
    if buf == [] then None
    else if buf[0].robTag == tag then Some(0)
    else match IndexOfTag(buf[1..], tag)
      case None => None
      case Some(k) => Some(k + 1)
  }

  // ---------------------------------------------------------------- retire

  /** The fields retire changes: RT_reg, the ROB, the RMT and the print_timing output. */
  datatype Retirement = Retirement(
    rtReg: seq<Instruction>, rob: seq<RobEntry>, rmt: seq<RmtEntry>, retiredLog: seq<Instruction>)

  /** print_timing and removal of the RT_reg instruction carrying `tag`, if there is one. */
  function ReportRetired(rtReg: seq<Instruction>, log: seq<Instruction>, tag: nat): (seq<Instruction>, seq<Instruction>)
  {
    match IndexOfTag(rtReg, tag)
    case Some(k) => (RemoveAt(rtReg, k), log + [rtReg[k]])
    case None => (rtReg, log)
  }

  /** The RMT after the retirement of the producer `tag` of `dest`: the mapping
      is invalidated only when it still names this producer. */
  function FreeMapping(rmt: seq<RmtEntry>, dest: int, tag: nat): seq<RmtEntry>
  {
    if 0 <= dest < |rmt| && rmt[dest].valid && rmt[dest].robTag == tag
    then rmt[dest := rmt[dest].(valid := false)]
    else rmt
  }

  /** Commit of the ROB head: report and drop its instruction from RT_reg,
      free its RMT mapping if it is still the latest, pop the head. */
  function RetireHead(v: Retirement): Retirement
    requires v.rob != []
  {
    var head := v.rob[0];
    var reported := ReportRetired(v.rtReg, v.retiredLog, head.tag);
    Retirement(reported.0, v.rob[1..], FreeMapping(v.rmt, head.dest, head.tag), reported.1)
  }

  /** Up to `n` commits, stopping at an empty ROB or a head that is not ready. */
  function RetireRounds(v: Retirement, n: nat): Retirement
    decreases n
  {
    if n == 0 || v.rob == [] || !v.rob[0].ready then v
    else RetireRounds(RetireHead(v), n - 1)
  }

  /** retire: one more cycle in RT_reg for every instruction, then up to
      `width` commits. */
  function RetireStage(v: Retirement, width: nat): Retirement
  {
    RetireRounds(v.(rtReg := TickAll(v.rtReg, RT)), width)
  }

  function Retire(s: State): State
  {
    var v := RetireStage(Retirement(s.rtReg, s.rob, s.rmt, s.retiredLog), s.width);
    s.(rtReg := v.rtReg, rob := v.rob, rmt := v.rmt, retiredLog := v.retiredLog)
  }

  // ---------------------------------------------------------------- write_back

  /** Sets `ready` on the first ROB entry carrying `tag`. */
  function MarkReady(rob: seq<RobEntry>, tag: nat): (r: seq<RobEntry>)
    ensures |r| == |rob|
    ensures forall k :: 0 <= k < |rob| ==>
      r[k] == rob[k].(ready := rob[k].ready || RobIndexOf(rob, tag) == Some(k))
  {
    match RobIndexOf(rob, tag)
    case None => rob
    case Some(k) => rob[k := rob[k].(ready := true)]
  }

  /** MarkReady for each instruction of `wb`, front first. */
  function MarkAllReady(rob: seq<RobEntry>, wb: seq<Instruction>): seq<RobEntry>
    decreases |wb|
  {
    if wb == [] then rob else MarkAllReady(MarkReady(rob, wb[0].robTag), wb[1..])
  }

  /** The fields write_back changes. */
  datatype Completion = Completion(wbReg: seq<Instruction>, rtReg: seq<Instruction>, rob: seq<RobEntry>)

  /** write_back: every WB_reg instruction, front first, marks its ROB entry
      ready and moves to RT_reg. */
  function WriteBackStage(v: Completion): Completion
  {
    var wb := TickAll(v.wbReg, WB);
    Completion([], v.rtReg + wb, MarkAllReady(v.rob, wb))
  }

  function WriteBack(s: State): State
  {
    var v := WriteBackStage(Completion(s.wbReg, s.rtReg, s.rob));
    s.(wbReg := v.wbReg, rtReg := v.rtReg, rob := v.rob)
  }

  // ---------------------------------------------------------------- execute

  /** Execution latency reached: 1, 2 or 5 cycles for op class 0, 1 or 2. */
  predicate Completes(i: Instruction)
  {
    (i.opType == 0 && i.execTime >= 1) ||
    (i.opType == 1 && i.execTime >= 2) ||
    (i.opType == 2 && i.execTime >= 5)
  }

  predicate Pending(i: Instruction)
  {
    !i.writeBack
  }

  /** One more cycle of execution; a completed instruction is flagged for write-back. */
  function Advance(i: Instruction): Instruction
  {
    var j := i.(execTime := i.execTime + 1);
    if Completes(j) then j.(writeBack := true) else j
  }

  function AdvanceAll(buf: seq<Instruction>): (r: seq<Instruction>)
    ensures |r| == |buf| && forall k :: 0 <= k < |buf| ==> r[k] == Advance(buf[k])
  {
    seq(|buf|, k requires 0 <= k < |buf| => Advance(buf[k]))
  }

  /** Tags broadcast by the instructions of `m` that complete and have a destination. */
  function WokenTags(m: seq<Instruction>): set<int>
  {
    set k | 0 <= k < |m| && Completes(m[k]) && m[k].dest != NoReg :: m[k].dest
  }

  /** Wakeup: a source equal to a broadcast tag becomes ready. */
  function Wake(i: Instruction, tags: set<int>): Instruction
  {
    i.(src1Ready := i.src1Ready || i.src1 in tags, src2Ready := i.src2Ready || i.src2 in tags)
  }

  function WakeAll(buf: seq<Instruction>, tags: set<int>): (r: seq<Instruction>)
    ensures |r| == |buf| && forall k :: 0 <= k < |buf| ==> r[k] == Wake(buf[k], tags)
  {
    seq(|buf|, k requires 0 <= k < |buf| => Wake(buf[k], tags))
  }

  /** The broadcast of one instruction after its execute cycle: when it
      completes and has a destination, the sources equal to that tag wake. */
  function Broadcast(buf: seq<Instruction>, a: Instruction): (r: seq<Instruction>)
    ensures |r| == |buf|
  {
    if Completes(a) && a.dest != NoReg then WakeAll(buf, {a.dest}) else buf
  }

  /** The broadcasts of the instructions of `m`, in execute_list order. */
  function BroadcastAll(buf: seq<Instruction>, m: seq<Instruction>): (r: seq<Instruction>)
    ensures |r| == |buf|
    decreases |m|
  {
    if m == [] then buf else Broadcast(BroadcastAll(buf, m[..|m| - 1]), m[|m| - 1])
  }

  lemma BroadcastAllSnoc(buf: seq<Instruction>, m: seq<Instruction>, a: Instruction)
    ensures BroadcastAll(buf, m + [a]) == Broadcast(BroadcastAll(buf, m), a)
  {
    assert (m + [a])[..|m + [a]| - 1] == m;
  }

  /** The fields execute changes. */
  datatype Execution = Execution(
    executeList: seq<Instruction>, wbReg: seq<Instruction>,
    iqReg: seq<Instruction>, diReg: seq<Instruction>, rrReg: seq<Instruction>)

  /** execute's two loops: every instruction executes one more cycle and
      broadcasts its tag when it completes; the completed ones are copied to
      WB_reg and erased from execute_list. */
  function ExecuteBuffers(v: Execution): Execution
  {
    var m := AdvanceAll(v.executeList);
    Execution(Filter(m, Pending), v.wbReg + Filter(m, Completes),
              BroadcastAll(v.iqReg, m), BroadcastAll(v.diReg, m), BroadcastAll(v.rrReg, m))
  }

  /** execute: one more cycle in execute_list for every instruction, then its two loops. */
  function ExecuteStage(v: Execution): Execution
  {
    ExecuteBuffers(v.(executeList := TickAll(v.executeList, EX)))
  }

  function Execute(s: State): State
  {
    var v := ExecuteStage(Execution(s.executeList, s.wbReg, s.iqReg, s.diReg, s.rrReg));
    s.(executeList := v.executeList, wbReg := v.wbReg, iqReg := v.iqReg, diReg := v.diReg, rrReg := v.rrReg)
  }

  // ---------------------------------------------------------------- issue

  predicate IsReady(i: Instruction)
  {
    i.src1Ready && i.src2Ready
  }

  /** Scan of iq[..n] for the oldest ready instruction (first one on an age tie). */
  function OldestReadyIn(iq: seq<Instruction>, n: nat): (r: Option<nat>)
    requires n <= |iq|
    ensures r.Some? ==> r.value < n && IsReady(iq[r.value])
    ensures r.Some? ==> forall j :: 0 <= j < n && IsReady(iq[j]) ==> iq[r.value].age <= iq[j].age
    ensures r.Some? ==> forall j :: 0 <= j < r.value && IsReady(iq[j]) ==> iq[r.value].age < iq[j].age
    ensures r.None? <==> forall j :: 0 <= j < n ==> !IsReady(iq[j])
  {
    if n == 0 then None
    else
      var r := OldestReadyIn(iq, n - 1);
      if IsReady(iq[n - 1]) && (r.None? || iq[n - 1].age < iq[r.value].age) then Some(n - 1) else r
  }

  function OldestReady(iq: seq<Instruction>): Option<nat>
  {
    OldestReadyIn(iq, |iq|)
  }

  /** `n` selection rounds: each moves the oldest ready instruction to the end of `ex`. */
  function IssueRounds(iq: seq<Instruction>, ex: seq<Instruction>, n: nat): (seq<Instruction>, seq<Instruction>)
    decreases n
  {
    if n == 0 then (iq, ex)
    else match OldestReady(iq)
      case None => IssueRounds(iq, ex, n - 1)
      case Some(k) => IssueRounds(RemoveAt(iq, k), ex + [iq[k]], n - 1)
  }

  /** issue: one more cycle in IQ_reg for every instruction, then `width`
      selection rounds unless IQ_reg is empty. Returns the new IQ_reg and
      execute_list. */
  function IssueStage(iqReg: seq<Instruction>, executeList: seq<Instruction>, width: nat): (seq<Instruction>, seq<Instruction>)
  {
    var iq := TickAll(iqReg, IS);
    if iq == [] then (iq, executeList) else IssueRounds(iq, executeList, width)
  }

  function Issue(s: State): State
  {
    var (iq, ex) := IssueStage(s.iqReg, s.executeList, s.width);
    s.(iqReg := iq, executeList := ex)
  }

  // ---------------------------------------------------------------- dispatch

  /** dispatch: one more cycle in DI_reg for every instruction, then the
      whole bundle moves to IQ_reg if it has room for all of it. Returns the
      new DI_reg and IQ_reg. */
  function DispatchStage(diReg: seq<Instruction>, iqReg: seq<Instruction>, iqSize: nat): (seq<Instruction>, seq<Instruction>)
  {
    var di := TickAll(diReg, DI);
    if iqSize - |iqReg| < |di| then (di, iqReg) else ([], iqReg + di)
  }

  function Dispatch(s: State): State
  {
    var (di, iq) := DispatchStage(s.diReg, s.iqReg, s.iqSize);
    s.(diReg := di, iqReg := iq)
  }

  // ---------------------------------------------------------------- register_read

  /** Re-check of the not-ready sources against the ROB. */
  function ReadOperands(i: Instruction, rob: seq<RobEntry>): Instruction
  {
    i.(src1Ready := i.src1Ready || TagReady(rob, i.src1),
       src2Ready := i.src2Ready || TagReady(rob, i.src2))
  }

  function ReadAll(buf: seq<Instruction>, rob: seq<RobEntry>): (r: seq<Instruction>)
    ensures |r| == |buf| && forall k :: 0 <= k < |buf| ==> r[k] == ReadOperands(buf[k], rob)
  {
    seq(|buf|, k requires 0 <= k < |buf| => ReadOperands(buf[k], rob))
  }

  /** register_read: one more cycle in RR_reg for every instruction, then
      the whole bundle moves to an empty DI_reg with its sources re-checked.
      Returns the new RR_reg and DI_reg. */
  function RegisterReadStage(rrReg: seq<Instruction>, diReg: seq<Instruction>, rob: seq<RobEntry>): (seq<Instruction>, seq<Instruction>)
  {
    var rr := TickAll(rrReg, RR);
    if |diReg| != 0 || |rr| == 0 then (rr, diReg) else ([], diReg + ReadAll(rr, rob))
  }

  function RegisterRead(s: State): State
  {
    var (rr, di) := RegisterReadStage(s.rrReg, s.diReg, s.rob);
    s.(rrReg := rr, diReg := di)
  }

  // ---------------------------------------------------------------- rename

  /** The fields rename changes: RN_reg, RR_reg, the ROB, the RMT and ROB_tail. */
  datatype Renaming = Renaming(
    rnReg: seq<Instruction>, rrReg: seq<Instruction>,
    rob: seq<RobEntry>, rmt: seq<RmtEntry>, robTail: nat)

  /** A source holding `tag`, looked up in the ROB after the entry of a new
      instruction tagged `newTag` (not ready) has been pushed at its back. */
  function TagReadyAfterPush(rob: seq<RobEntry>, newTag: nat, tag: int): bool
  {
    ReadyFrom(rob, tag, 0, tag != newTag)
  }

  lemma {:induction false} ReadyFromPush(rob: seq<RobEntry>, e: RobEntry, tag: int, j: nat, absent: bool)
    requires j <= |rob|
    ensures ReadyFrom(rob + [e], tag, j, absent) ==
            ReadyFrom(rob, tag, j, if e.tag == tag then e.ready else absent)
    decreases |rob| - j
  {
    if j < |rob| {
      assert (rob + [e])[j] == rob[j];
      if rob[j].tag != tag {
        ReadyFromPush(rob, e, tag, j + 1, absent);
      }
    } else {
      assert (rob + [e])[j] == e;
      assert ReadyFrom(rob + [e], tag, j + 1, absent) == absent;
    }
  }

  /** TagReadyAfterPush is TagReady on the ROB with the new entry pushed. */
  lemma TagReadyPush(rob: seq<RobEntry>, e: RobEntry, tag: int)
    requires !e.ready
    ensures TagReady(rob + [e], tag) == TagReadyAfterPush(rob, e.tag, tag)
  {
    ReadyFromPush(rob, e, tag, 0, true);
  }

  /** A source operand after rename: the producer's ROB tag when the RMT
      holds a valid mapping for it, the register otherwise. */
  function RenamedSource(src: int, rmt: seq<RmtEntry>): int
  {
    if 0 <= src < |rmt| && rmt[src].valid then rmt[src].robTag else src
  }

  /** The ready flag rename gives a source operand: a mapped source waits for
      its producer; an unmapped source or no source is ready. */
  function SourceReady(src: int, rmt: seq<RmtEntry>, rob: seq<RobEntry>, newTag: nat): bool
  {
    if 0 <= src < |rmt| && rmt[src].valid then TagReadyAfterPush(rob, newTag, rmt[src].robTag) else true
  }

  /** The instruction tagged `tag` with both sources renamed through `rmt`;
      `rob` is the ROB before the instruction's own entry is pushed. */
  function RenamedSources(i: Instruction, rmt: seq<RmtEntry>, rob: seq<RobEntry>, tag: nat): Instruction
  {
    i.(robTag := tag,
       src1 := RenamedSource(i.src1, rmt), src1Ready := SourceReady(i.src1, rmt, rob, tag),
       src2 := RenamedSource(i.src2, rmt), src2Ready := SourceReady(i.src2, rmt, rob, tag))
  }

  /** Rename of the front instruction of RN_reg. The ROB entry is allocated
      before the sources are looked up, and the sources use the map as it was
      before this instruction's own destination is recorded. */
  function RenameOne(v: Renaming): Renaming
    requires v.rnReg != []
  {
    var i := v.rnReg[0];
    var tag := v.robTail;
    var renamed := RenamedSources(i, v.rmt, v.rob, tag);
    var rmt := if 0 <= i.dest < |v.rmt| then v.rmt[i.dest := RmtEntry(true, tag)] else v.rmt;
    var dest := if i.dest != NoReg then tag as int else i.dest;
    Renaming(v.rnReg[1..], v.rrReg + [renamed.(dest := dest)], v.rob + [RobEntry(i.pc, false, i.dest, tag)], rmt, tag + 1)
  }

  /** Up to `n` renames, stopping when RN_reg runs out. */
  function RenameRounds(v: Renaming, n: nat): Renaming
    decreases n, 1
  {
    if n == 0 || v.rnReg == [] then v
    else RenameFrontThenRounds(v, n)
  }

  /** The front instruction renamed, then up to `n - 1` more. */
  function RenameFrontThenRounds(v: Renaming, n: nat): Renaming
    requires 0 < n && v.rnReg != []
    decreases n, 0
  {
    RenameRounds(RenameOne(v), n - 1)
  }

  /** rename: one more cycle in RN_reg for every instruction, then up to
      `width` renames when RR_reg is empty, the ROB has room for `width` more
      entries and RN_reg is not empty. */
  function RenameStage(v: Renaming, robSize: nat, width: nat): Renaming
  {
    var w := v.(rnReg := TickAll(v.rnReg, RN));
    if |w.rrReg| != 0 || robSize - |w.rob| < width || |w.rnReg| == 0 then w
    else RenameRounds(w, width)
  }

  function Rename(s: State): State
  {
    var v := RenameStage(Renaming(s.rnReg, s.rrReg, s.rob, s.rmt, s.robTail), s.robSize, s.width);
    s.(rnReg := v.rnReg, rrReg := v.rrReg, rob := v.rob, rmt := v.rmt, robTail := v.robTail)
  }

  // ---------------------------------------------------------------- decode

  /** decode: one more cycle in DE_reg for every instruction, then the whole
      bundle moves to an empty RN_reg. Returns the new DE_reg and RN_reg. */
  function DecodeStage(deReg: seq<Instruction>, rnReg: seq<Instruction>): (seq<Instruction>, seq<Instruction>)
  {
    var de := TickAll(deReg, DE);
    if |rnReg| != 0 || |de| == 0 then (de, rnReg) else ([], rnReg + de)
  }

  function Decode(s: State): State
  {
    var (de, rn) := DecodeStage(s.deReg, s.rnReg);
    s.(deReg := de, rnReg := rn)
  }

  // ---------------------------------------------------------------- fetch

  /** The instructions built from `n` trace lines starting at `records[pos]`. */
  function Fetched(records: seq<TraceRecord>, pos: nat, n: nat, firstAge: nat, cycle: nat): (r: seq<Instruction>)
    requires pos + n <= |records|
    ensures |r| == n
    ensures forall j :: 0 <= j < n ==> r[j] == NewInstruction(records[pos + j], firstAge + j, cycle)
  {
    if n == 0 then [] else Fetched(records, pos, n - 1, firstAge, cycle) + [NewInstruction(records[pos + n - 1], firstAge + n - 1, cycle)]
  }

  /** The fields fetch changes, and the read position of the trace. */
  datatype Fetching = Fetching(deReg: seq<Instruction>, totalRead: nat, traceDepleted: bool, pos: nat)

  /** fetch, when DE_reg is empty: up to `width` lines from `records[v.pos]`
      on, each numbered with the next age; a failed read marks the trace
      depleted and ends the bundle. */
  function FetchStage(v: Fetching, records: seq<TraceRecord>, width: nat, cycle: nat): Fetching
    requires v.pos <= |records|
  {
    if |v.deReg| != 0 then v
    else
      var n := Min(width, |records| - v.pos);
      Fetching(v.deReg + Fetched(records, v.pos, n, v.totalRead, cycle),
               v.totalRead + n, v.traceDepleted || n < width, v.pos + n)
  }

  /** Fetch from a trace whose next unread line is `records[pos]`; returns the new read position. */
  function Fetch(s: State, records: seq<TraceRecord>, pos: nat): (State, nat)
    requires pos <= |records|
  {
    var v := FetchStage(Fetching(s.deReg, s.totalRead, s.traceDepleted, pos), records, s.width, s.cycleCount);
    (s.(deReg := v.deReg, totalRead := v.totalRead, traceDepleted := v.traceDepleted), v.pos)
  }

  // ---------------------------------------------------------------- advance_cycle

  /** The trace is used up and nothing is in flight. */
  predicate Drained(s: State)
  {
    s.traceDepleted && s.deReg == [] && s.rnReg == [] && s.rrReg == [] && s.diReg == [] &&
    s.iqReg == [] && s.executeList == [] && s.wbReg == [] && s.rob == []
  }

  function AdvanceCycle(s: State): (State, bool)
  {
    (s.(cycleCount := s.cycleCount + 1), !Drained(s))
  }

  // ---------------------------------------------------------------- one simulated cycle

  /** The driver's loop body: the stages in reverse pipeline order, then advance_cycle. */
  function Cycle(s: State, records: seq<TraceRecord>, pos: nat): (State, nat, bool)
    requires pos <= |records|
  {
    var s1 := Retire(s);
    var s2 := WriteBack(s1);
    var s3 := Execute(s2);
    var s4 := Issue(s3);
    var s5 := Dispatch(s4);
    var s6 := RegisterRead(s5);
    var s7 := Rename(s6);
    var s8 := Decode(s7);
    var fetched := Fetch(s8, records, pos);
    var next := AdvanceCycle(fetched.0);
    (next.0, fetched.1, next.1)
  }
}
