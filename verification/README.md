# Out-of-order superscalar pipeline, modelled in Dafny

The simulator's `Processor` models a superscalar out-of-order pipeline. It is
configured with a reorder-buffer size (`rob_size`), an issue-queue size
(`iq_size`) and a superscalar `width`. Each simulated cycle runs nine stages
in reverse pipeline order: retire, write_back, execute, issue, dispatch,
register_read, rename, decode and fetch. Then `advance_cycle` counts the
cycle and decides whether to stop.

Instructions move through the pipeline registers in this order:
DE_reg, RN_reg, RR_reg, DI_reg, IQ_reg, execute_list, WB_reg and RT_reg.
- Rename gives each instruction a ROB entry at the tail and a ROB tag. It maps
  destinations to that tag in the 67-entry rename map table (RMT).
- Rename reads sources through the RMT.
- Execute completes an instruction after its fixed latency, which depends on
  the op type (1, 2 or 5 cycles). A completing instruction broadcasts its tag
  to the waiting sources.
- Issue picks the oldest ready instructions.
- Retire commits ready instructions from the ROB head, in order.

The project has two layers and a set of proofs.

- `records.dfy` (module `Records`) holds the entities of `proc.h`:
  - `Instruction` with its timing record;
  - the ROB entry and the RMT entry;
  - a trace line (`TraceRecord`).
- `stages.dfy` (module `Stages`) is the reference layer.
  - `State` is a value with every `Processor` field.
  - Each stage is a function on a view of that state: a closed form for the
    batch moves, recursive "rounds" for the loops with sequential
    dependence (rename, issue, retire, write_back's ROB marking, execute's
    broadcasts).
  - `Cycle` is the driver's loop body.
- `processor.dfy` (module `Proc`) is the imperative layer.
  - `Processor` is a class with the source's fields: the deques become `seq`
    fields, updated in place.
  - Each stage is a method with the source's loops. Each method is proved to
    leave exactly the state the reference function describes.
  - The trace file is the class `TraceFile`, a sequence of decoded lines with
    a read position.
- The property modules are `RetireProps`, `CompleteProps`, `IssueProps`,
  `RenameProps` and `PipelineProps`. They prove what each stage promises.
- `Tracking` lists the ROB tags a buffer's instructions carry and the tags
  of the ready and the waiting ROB entries; `TrackingProps` proves that
  every stage keeps those lists in step.
- The `Invariant` module proves a cycle invariant:
  - the capacities hold;
  - ROB tags ascend from head to tail and stay below ROB_tail;
  - the RMT keeps 67 entries and maps only to tags already handed out;
  - register numbers are in range;
  - nothing is flagged for write-back before execute ends;
  - every source that is not ready holds a tag;
  - the bookkeeping between instructions and ROB entries (module
    `TrackingProps`, over the tag lists of module `Tracking`): every ROB
    entry that is not ready is carried by exactly one renamed instruction
    still to write back (RR_reg, DI_reg, IQ_reg, execute_list, WB_reg),
    every ready one by exactly one instruction of RT_reg, and no other tag
    is carried; every renamed instruction's age is its ROB tag; RN_reg and
    DE_reg hold the next ages from ROB_tail up to the number of lines read;
    the log of retired instructions ascends by tag and lies below every ROB
    tag and below ROB_tail.

  `config_proc` establishes this invariant and every whole cycle keeps it.
  From it follow: retire reports exactly one instruction per committed ROB
  entry, in ROB order; the log of retired instructions is in strictly
  increasing age order; issue sends instructions to execute in strictly
  increasing age order.

`print_timing` is modelled as an output sink. The field `retiredLog` receives
the instructions in the order they are reported.

## Model

| member | source | states |
|---|---|---|
| Records.NewInstruction | proc.cc:476-492 | a fetched instruction copies pc, op type and registers from its trace line into both the working and the original register fields, takes the given age, starts with no ready source, no write-back flag, no execute cycles, the current cycle as begin cycle and one fetch cycle |
| Records.FreshTiming | proc.h:38-47 | a new timing record begins at the given cycle with every per-stage residency count at zero |
| Records.TickAll | proc.cc:136-138 | the per-stage residency increment keeps the buffer's length and bumps exactly the given stage's count of every instruction |
| Seqs.RemoveAt | proc.cc:273 | erasing position k keeps the elements before k and shifts those after it down by one |
| Seqs.RemoveAtMultiset | proc.cc:154 | erasing one position loses exactly that element |
| Seqs.Filter | proc.cc:242-247 | execute's erase loop keeps exactly the elements that satisfy the predicate and nothing else |
| Seqs.FilterPartition | proc.cc:242-247 | what is kept and what is erased together are exactly the original list |
| Seqs.FilterAppend | proc.cc:242-247 | filtering a concatenation filters each part in turn, so the erase loop keeps the relative order of what it keeps |
| Seqs.FilterInterleaves | proc.cc:242-247 | what is kept and what is erased are an order-preserving split of the original list: each keeps its elements in their original order |
| Stages.Config | proc.cc:119-133 | config_proc appends 67 invalid RMT entries with tag 0 after any existing ones |
| Stages.RobIndexOf | proc.cc:313-319 | the ROB search yields a valid index when it finds the tag |
| Stages.RobIndexOfFirst | proc.cc:313-319 | the ROB search stops at the first entry that carries the tag, and finds nothing exactly when no entry does |
| Stages.TagReadyIndex | proc.cc:320-325 | a source becomes ready when the first ROB entry with its tag is ready or when no entry carries the tag |
| Stages.IndexOfTag | proc.cc:148-158 | the RT_reg search finds the first instruction that carries the tag, and finds nothing exactly when none does |
| Stages.MarkReady | proc.cc:186-191 | write_back's ROB search marks at most the first entry that carries the tag |
| Stages.OldestReadyIn | proc.cc:258-268 | the selection scan yields a ready instruction no younger than any ready one, the first such by position, and nothing exactly when none is ready |
| Stages.TagReadyPush | proc.cc:384-394 | rename's readiness check after the ROB push sees the instruction's own new entry, which is not ready |
| Stages.Fetched | proc.cc:472-496 | the fetched bundle holds one new instruction per trace line read, with consecutive ages |
| Stages.AdvanceAll | proc.cc:203-220 | every instruction of execute_list executes one more cycle |
| Stages.WakeAll | proc.cc:226-237 | the wakeup is applied to every instruction of a buffer, in place |
| Stages.ReadAll | proc.cc:305-351 | register_read's operand check is applied to every instruction of RR_reg, in place |
| Proc.TraceFile.constructor | sim_proc.cc:32-37 | an opened trace starts at its first line |
| Proc.TraceFile.Read | proc.cc:473-475 | a read yields the next line and advances, or yields nothing at the end of the trace |
| Proc.Processor.constructor | proc.h:14-24 | a new processor has empty buffers, an empty ROB and RMT, and zero counters |
| Proc.Processor.AppendInvalidMappings | proc.cc:126-132 | the RMT gains 67 invalid entries at its end |
| Proc.Processor.ConfigProc | proc.cc:119-133 | the configuration is stored and the RMT is extended as Stages.Config says |
| Proc.Processor.ReportRetired | proc.cc:148-158 | the instruction of RT_reg that carries the tag moves to the report log |
| Proc.Processor.CommitHead | proc.cc:143-169 | one commit of the ROB head: report, free the mapping, pop |
| Proc.Processor.CommitReady | proc.cc:140-174 | the commit loop matches the retire rounds |
| Proc.Processor.Retire | proc.cc:135-175 | retire leaves the state Stages.RetireStage describes (see RetireProps.RetireStageCommits) |
| Proc.Processor.MarkRobReady | proc.cc:186-191 | the ROB loop marks the entry as Stages.MarkReady says |
| Proc.Processor.DrainWriteBack | proc.cc:182-195 | WB_reg drains in order onto the end of RT_reg, and the ROB entries of the drained instructions are marked |
| Proc.Processor.WriteBack | proc.cc:177-196 | write_back leaves the state Stages.WriteBackStage describes (see CompleteProps.WriteBackStageMarks) |
| Proc.Processor.Broadcast | proc.cc:222-237 | every source of IQ_reg, DI_reg and RR_reg that names the producer's tag becomes ready |
| Proc.Processor.ExecuteOne | proc.cc:204-238 | one instruction executes one more cycle; at its latency it is flagged, copied to WB_reg and broadcast |
| Proc.Processor.AdvanceRound | proc.cc:203-240 | one more round of execute's first loop extends the advanced prefix |
| Proc.Processor.AdvanceExecuting | proc.cc:203-240 | after execute's first loop, execute_list is advanced, WB_reg has gained the completed instructions in order, and the three buffers have received every broadcast |
| Proc.Processor.RemoveCompleted | proc.cc:242-247 | the erase loop leaves exactly the instructions not flagged for write-back, in order |
| Proc.Processor.ExecuteBuffers | proc.cc:203-247 | execute's two loops leave the buffers as Stages.ExecuteBuffers says |
| Proc.Processor.Execute | proc.cc:198-248 | execute leaves the state Stages.ExecuteStage describes (see CompleteProps.ExecuteStageCompletes) |
| Proc.Processor.SelectOldestReady | proc.cc:258-268 | the scan finds the oldest ready instruction (the first of equal age), and reports not found exactly when none is ready |
| Proc.Processor.IssueBundle | proc.cc:257-275 | the width selection rounds match the issue rounds |
| Proc.Processor.Issue | proc.cc:250-276 | issue leaves the state Stages.IssueStage describes (see IssueProps.IssueStageSelects) |
| Proc.Processor.DispatchBundle | proc.cc:288-292 | all of DI_reg moves, in order, onto the end of IQ_reg |
| Proc.Processor.Dispatch | proc.cc:278-294 | dispatch leaves the state Stages.DispatchStage describes (see PipelineProps.DispatchStageMoves) |
| Proc.Processor.FindInRob | proc.cc:313-319 | the ROB loop finds the tag exactly when some entry carries it, and the ready flag it reports belongs to the first such entry |
| Proc.Processor.ReadSources | proc.cc:309-347 | both sources are re-checked against the ROB as Stages.ReadOperands says |
| Proc.Processor.ReadBundle | proc.cc:305-351 | all of RR_reg moves, in order and re-checked, onto the end of DI_reg |
| Proc.Processor.RegisterRead | proc.cc:296-353 | register_read leaves the state Stages.RegisterReadStage describes (see PipelineProps.RegisterReadStageMoves) |
| Proc.Processor.RenameSource | proc.cc:378-403 | a source is renamed through the RMT; it is ready when it is unmapped, or when its producer's tag is absent from the ROB or its entry is ready |
| Proc.Processor.RenameOperands | proc.cc:377-431 | both sources are renamed as Stages.RenamedSources says, against the ROB with the instruction's own entry already pushed |
| Proc.Processor.RenameFront | proc.cc:365-441 | the front of RN_reg is renamed as Stages.RenameOne says |
| Proc.Processor.RenameBundle | proc.cc:363-442 | the rename loop matches the rename rounds |
| Proc.Processor.Rename | proc.cc:355-443 | rename leaves the state Stages.RenameStage describes (see RenameProps.RenameStageRenames) |
| Proc.Processor.DecodeBundle | proc.cc:455-458 | all of DE_reg moves, in order, onto the end of RN_reg |
| Proc.Processor.Decode | proc.cc:445-460 | decode leaves the state Stages.DecodeStage describes (see PipelineProps.DecodeStageMoves) |
| Proc.Processor.FetchBundle | proc.cc:472-501 | fetch's loop reads min(width, lines left) lines into DE_reg with consecutive ages, and marks the trace depleted exactly when a read fails |
| Proc.Processor.Fetch | proc.cc:462-502 | fetch leaves the state Stages.FetchStage describes (see PipelineProps.FetchStageReads) |
| Proc.Processor.AdvanceCycle | proc.cc:504-513 | the cycle count grows by one, and the simulation continues exactly when the trace is not depleted or one of DE_reg, RN_reg, RR_reg, DI_reg, IQ_reg, execute_list, WB_reg and the ROB is not empty (RT_reg is not tested) |
| Proc.AdvancedStep | proc.cc:203-240 | after one more round of execute's first loop, the prefix of advanced instructions grows by one, WB_reg gains it if complete, and its broadcast is added |
| Proc.TickBuffer | proc.cc:136-138 | the residency loop bumps the stage count of every instruction of the buffer |
| Proc.WakeBuffer | proc.cc:226-229 | the wakeup loop readies every source naming the producer's tag |
| RetireProps.ReadyPrefix | proc.cc:140-174 | the commit count is at most width and the ROB size, every counted entry is ready, and the entry after them is not ready when the count stopped early |
| RetireProps.FreeMappingRule | proc.cc:160-166 | a commit only invalidates the RMT entry of its destination, and only when that entry is valid and still names the committing tag |
| RetireProps.ReportRetiredMoves | proc.cc:148-158 | the log grows by at most one instruction, which carries the tag and leaves RT_reg; the log stays the same exactly when no instruction of RT_reg carries the tag |
| RetireProps.RetireRoundsPopsHead | proc.cc:140-174 | the commit rounds pop exactly the ready prefix of the ROB, from the head |
| RetireProps.RetireRoundsFrees | proc.cc:160-166 | after the rounds, an RMT entry is invalidated exactly when a committed instruction writes that register and carries the tag the entry names |
| RetireProps.RetireRoundsMoves | proc.cc:148-158 | the log only grows, by at most the number of commits, with instructions moved out of RT_reg |
| RetireProps.RetireRoundsOrder | proc.cc:140-174 | the reported instructions carry committed tags, in increasing tag order |
| RetireProps.RetireStageCommits | proc.cc:135-175 | retire commits exactly the ready ROB prefix of at most width entries, in order, frees only the mappings they still own, and reports them from RT_reg in tag order |
| RetireProps.HeadReportsTag | proc.cc:143-158 | when every ready ROB entry's tag is carried in RT_reg, committing the ready head reports one instruction, which carries the head's tag, and the remaining ready entries stay carried |
| RetireProps.RetireRoundsReports | proc.cc:140-174 | under the same condition the commit rounds append exactly one instruction per committed entry, the j-th carrying the j-th entry's tag |
| RetireProps.CommitKeepsMatch | proc.cc:143-169 | when RT_reg's tags are exactly the ready entries' tags, they still are after the committed prefix and its reports leave, and the waiting entries are unchanged |
| RetireProps.RetireStageReports | proc.cc:135-175 | when RT_reg's tags are exactly the ready entries' tags, retire makes the log grow by exactly the number of committed entries, keeps its old contents, gives the j-th new instruction the j-th committed tag, and keeps the match |
| CompleteProps.MarkReadyUnique | proc.cc:186-191 | with distinct ROB tags, the search marks exactly the entry that carries the tag |
| CompleteProps.MarkAllReadyMarks | proc.cc:183-195 | an entry becomes ready exactly when some WB_reg instruction carries its tag, and nothing else changes |
| CompleteProps.WriteBackStageMarks | proc.cc:177-196 | write_back empties WB_reg onto the end of RT_reg in order, and readies exactly the ROB entries of the drained instructions |
| CompleteProps.BroadcastAllWakes | proc.cc:222-237 | the broadcasts in execute_list order wake exactly the sources that name a completed producer |
| CompleteProps.ExecuteStageCompletes | proc.cc:198-248 | each instruction executes one more cycle; those whose latency is reached leave execute_list for the end of WB_reg, flagged; the rest stay unflagged; nothing is lost; what stays in execute_list and what is appended to WB_reg are an order-preserving split of the advanced list; the sources of IQ_reg, DI_reg and RR_reg that name a completed producer wake |
| CompleteProps.WakeMonotone | proc.cc:226-237 | a wakeup never clears a ready flag and changes nothing but the ready flags |
| IssueProps.NoneReady | proc.cc:270-274 | a selection round with nothing ready moves nothing |
| IssueProps.PrependOldest | proc.cc:261-273 | the instruction selected first is the oldest ready one, ahead of the later selections |
| IssueProps.OneIssued | proc.cc:270-274 | moving the oldest ready instruction to execute_list and selecting from the rest is a valid selection |
| IssueProps.IssueRoundsSelect | proc.cc:257-275 | the rounds append at most n ready instructions in age order, no younger than any ready one left, lose or duplicate nothing, and stop early only when nothing ready is left |
| IssueProps.IssueStageSelects | proc.cc:250-276 | issue moves at most width oldest ready instructions from IQ_reg to the end of execute_list, in age order, and leaves nothing ready behind when fewer issue |
| RenameProps.RenameOneRenames | proc.cc:365-441 | one rename takes the next tag, appends a not-ready ROB entry with pc and destination, replaces the destination by the tag, and moves the instruction to the end of RR_reg |
| RenameProps.RenameRoundsRenames | proc.cc:363-442 | the loop renames min(n, size of RN_reg) instructions in order, with consecutive tags and ROB entries |
| RenameProps.LatestMapMaps | proc.cc:433-437 | the mapping left by a run of renames maps each written register to its latest producer and keeps the others |
| RenameProps.RenameRoundsRmt | proc.cc:433-437 | the rename loop leaves the RMT that the latest-producer map describes |
| RenameProps.RenameRoundsMaps | proc.cc:433-437 | after the loop, each register written by a renamed instruction maps validly to its latest writer's tag, and the rest keep their mapping |
| RenameProps.RenameOneSources | proc.cc:377-431 | an unmapped source or NoReg is kept and ready; a mapped source takes the producer's tag and is ready exactly when the tag is absent from the ROB (with the new entry) or its first entry is ready |
| RenameProps.RenameOneKeeps | proc.cc:365-441 | one rename keeps mappings below ROB_tail, and every source of RR_reg that is not ready holds a tag handed out |
| RenameProps.RenameRoundsKeep | proc.cc:363-442 | the rename loop keeps the same facts |
| RenameProps.RenameStageKeeps | proc.cc:355-443 | rename never lowers ROB_tail and keeps mappings and unready sources below it |
| RenameProps.RenamedMapped | proc.cc:372 | renaming keeps every ROB destination and every register to be renamed within the RMT |
| RenameProps.RenamedAscending | proc.cc:368-375 | tags appended at the ROB tail keep ROB tags ascending and below ROB_tail |
| RenameProps.RenameStageRenames | proc.cc:355-443 | rename stalls as a whole when RR_reg is busy, the ROB lacks width free entries, or RN_reg is empty; otherwise it renames min(width, size of RN_reg) instructions in order, maps each destination to its latest producer, and keeps the ROB within rob_size with ascending tags |
| PipelineProps.FetchStageReads | proc.cc:462-502 | fetch does nothing while DE_reg is busy; otherwise it reads min(width, lines left) lines with consecutive ages, identical working and original registers, no ready source and one fetch cycle, and marks the trace depleted exactly when fewer than width lines were left |
| PipelineProps.FetchKeepsRegsMapped | proc.cc:476-484 | registers of well-formed trace lines index the RMT after fetch |
| PipelineProps.DecodeStageMoves | proc.cc:445-460 | decode moves all of DE_reg behind RN_reg or nothing, keeps the order, and moves exactly when RN_reg is empty and DE_reg is not |
| PipelineProps.RegisterReadStageMoves | proc.cc:296-353 | register_read moves all of RR_reg into an empty DI_reg or nothing; what moves keeps its order and every field but the ready flags; a flag stays set, and a clear one is set when its tag's first ROB entry is ready or absent |
| PipelineProps.DispatchStageMoves | proc.cc:278-294 | dispatch moves all of DI_reg behind IQ_reg exactly when IQ_reg has room for all of it, keeps the order, and never lets IQ_reg exceed iq_size |
| PipelineProps.AdvanceCycleStops | proc.cc:504-513 | advance_cycle counts the cycle, changes nothing else, and says stop exactly when the trace is depleted and DE_reg, RN_reg, RR_reg, DI_reg, IQ_reg, execute_list, WB_reg and the ROB are all empty (RT_reg is not tested) |
| Tracking.MarkAllReadyMoves | proc.cc:183-195 | with ascending ROB tags, write_back's marking moves the tags of the drained instructions from the waiting ROB entries to the ready ones, each exactly once |
| TrackingProps.RetireStageLogOrder | proc.cc:135-175 | retire appends to the log in increasing tag order, below every tag left in the ROB and below ROB_tail |
| TrackingProps.RetireKeepsTracked | proc.cc:135-175 | retire keeps the bookkeeping and only appends to the log |
| TrackingProps.WriteBackKeepsTracked | proc.cc:177-196 | write_back keeps the bookkeeping: the drained instructions' entries turn ready as they join RT_reg |
| TrackingProps.ExecuteBags | proc.cc:198-248 | execute keeps the tags still to write back: what leaves execute_list enters WB_reg |
| TrackingProps.ExecuteKeepsTracked | proc.cc:198-248 | execute keeps the bookkeeping |
| TrackingProps.IssueKeepsTracked | proc.cc:250-276 | issue keeps the bookkeeping |
| TrackingProps.DispatchKeepsTracked | proc.cc:278-294 | dispatch keeps the bookkeeping |
| TrackingProps.RegisterReadKeepsTracked | proc.cc:296-353 | register_read keeps the bookkeeping |
| TrackingProps.RenamedBags | proc.cc:365-441 | the ROB entries rename appends wait under exactly the tags of the instructions it appends to RR_reg, each of which carries its age as tag |
| TrackingProps.RenameKeepsTracked | proc.cc:355-443 | rename keeps the bookkeeping: each new waiting entry is carried by the instruction it renamed, and RN_reg keeps the next ages |
| TrackingProps.DecodeKeepsTracked | proc.cc:445-460 | decode keeps the bookkeeping: RN_reg followed by DE_reg still holds consecutive ages |
| TrackingProps.FetchKeepsTracked | proc.cc:462-502 | fetch keeps the bookkeeping: the new lines take the next ages, up to the number of lines read |
| TrackingProps.ConfigTracked | proc.cc:119-133 | a processor configured by config_proc satisfies the bookkeeping |
| Invariant.ConfigEstablishesInv | proc.cc:119-133 | a default processor configured by config_proc satisfies the cycle invariant, has zero counters and the given sizes, and maps no register |
| Invariant.RetireKeepsInv | proc.cc:135-175 | retire keeps the cycle invariant |
| Invariant.WriteBackKeepsInv | proc.cc:177-196 | write_back keeps the cycle invariant |
| Invariant.ExecuteKeepsInv | proc.cc:198-248 | execute keeps the cycle invariant |
| Invariant.IssueKeepsInv | proc.cc:250-276 | issue keeps the cycle invariant |
| Invariant.DispatchKeepsInv | proc.cc:278-294 | dispatch keeps the cycle invariant, IQ_reg within iq_size included |
| Invariant.RegisterReadKeepsInv | proc.cc:296-353 | register_read keeps the cycle invariant |
| Invariant.RenameKeepsInv | proc.cc:355-443 | rename keeps the cycle invariant: ROB within rob_size, tags ascending below ROB_tail, RMT mappings below ROB_tail, unready sources tagged |
| Invariant.DecodeKeepsInv | proc.cc:445-460 | decode keeps the cycle invariant |
| Invariant.FetchKeepsInv | proc.cc:462-502 | fetch keeps the cycle invariant and moves the trace position forward, never past the end |
| Invariant.AdvanceCycleKeepsInv | proc.cc:504-513 | advance_cycle keeps the cycle invariant |
| Invariant.CycleLog | sim_proc.cc:43-56 | of the stages of one cycle only retire changes the log of retired instructions |
| Invariant.CycleKeepsInv | sim_proc.cc:43-56 | one iteration of the driver loop keeps the cycle invariant, never changes the configuration, counts one cycle, never moves the trace position backwards or past its end, only appends to the log of retired instructions, and leaves that log in strictly increasing age order |
| Invariant.RetireReportsEach | proc.cc:135-175 | under the cycle invariant retire pops exactly the ready prefix of the ROB and the log gains exactly one instruction per popped entry, in ROB order, carrying that entry's tag as tag and age, its old contents kept |
| Invariant.LogInAgeOrder | proc.cc:135-175 | under the cycle invariant the log of retired instructions is in strictly increasing age order: instructions retire in program order, each once |
| Invariant.RobEntryCarried | proc.cc:148-158 | under the cycle invariant each ROB entry's tag is carried by exactly one instruction: in RT_reg when the entry is ready, among the instructions still to write back otherwise |
| Invariant.CarriedHasEntry | proc.cc:186-191 | under the cycle invariant every instruction of RT_reg has a ready ROB entry with its tag, and every instruction still to write back a waiting one |
| Invariant.IssueInAgeOrder | proc.cc:257-275 | under the cycle invariant issue sends instructions to execute in strictly increasing age order, and every ready instruction left in IQ_reg is strictly younger than every issued one |

## Left out

- Machine integer widths are not modelled:
  - Counters, ages, tags and pcs are unbounded naturals. The 32-bit wrap of `current_rob_tail` (proc.h:22) and of `rob_tag` is not modelled.
  - The `(unsigned int)` casts in the ROB searches are not modelled. A source compared there is never -1, because only a mapped source is searched.
  - Stages.RenameStage, Stages.DispatchStage: the unsigned subtractions `rob_size-ROB.size()` and `iq_size - IQ_reg.size()` are integer subtractions here. They cannot wrap, because the invariant keeps the ROB within rob_size and IQ_reg within iq_size.
- Seqs.Filter: execute's erase loop with `i--` on an unsigned index is modelled by its effect, keeping the unflagged instructions in their original order (Seqs.FilterInterleaves). The index wrap at position 0 is not modelled.
- Proc.Processor.constructor: `rob_size`, `iq_size` and `width` are left uninitialised by the source. They are 0 here until config_proc sets them.
- The `retired` field of Instruction is not modelled. It is written once and never read.
- Printing is not modelled:
  - `print_timing` is not formatted. The reported instruction goes to the `retiredLog` field.
  - The debug printers `print_instruction`, `print_instruction_vector` and `printRMTVector` are left out.
  - `output_statistics` is left out, because it only prints and uses floating point.
- Reading the trace is replaced by `TraceFile`:
  - `read_instruction_from_file` and the `FILE*` are replaced by the sequence of decoded trace lines. A line that does not scan as five fields counts as the end of the trace.
  - The `FP == NULL` early return of fetch is not modelled, because `TraceFile` is never null.
- Trace lines are required to be well-formed, with register numbers -1..66 (`Records.WellFormed`), wherever the RMT is indexed. The source indexes the RMT without a bounds check, so out-of-range registers are undefined behaviour there.
- The driver in `sim_proc.cc` is modelled only in part:
  - Argument parsing and `fopen` are left out.
  - There is no `Processor.Cycle` method. The loop body is the reference function `Stages.Cycle`, proved by Invariant.CycleKeepsInv, and each stage method is proved against its reference function.
  - The loop's termination is not proved. The source loops forever on some configurations and traces, and the model does the same:
    - a width of 0;
    - an op type outside 0..2, which never completes;
    - rob_size below width: rename's stall test `rob_size-ROB.size() < width` (proc.cc:360) then always holds;
    - iq_size below the size of a full dispatch bundle: dispatch's room test (proc.cc:284) then never accepts it.
- Invariant.Inv: "a source that is not ready holds a ROB tag" is stated as `0 <= src < ROB_tail`, not as membership in the current ROB.
- Invariant.Inv: the survival of the original register fields is not a cycle invariant. It is shown for rename (RenameProps.Tagged) and for fetch (Records.NewInstruction).
