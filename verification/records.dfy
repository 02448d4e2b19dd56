/** The records the pipeline moves around: trace lines, in-flight
    instructions, reorder-buffer entries and rename-map-table entries. */
module Records {

  datatype Option<T> = None | Some(value: T)

  /** Number of rename map table entries built by config_proc. */
  const RmtSize: nat := 67

  /** The register field value meaning "no register". */
  const NoReg: int := -1

  /** The smaller of two counts: how many lines one fetch reads
      (`width`, or what is left of the trace) and how many instructions one
      rename moves (`width`, or what RN_reg holds). */
  function Min(a: nat, b: nat): nat
  {
    if a < b then a else b
  }

  /** One decoded line of the trace: `<pc> <op_type> <dest> <src1> <src2>`. */
  datatype TraceRecord = TraceRecord(pc: nat, opType: int, dest: int, src1: int, src2: int)

  /** A register field of a trace line: "no register" or an index into the RMT. */
  predicate RegInRange(r: int)
  {
    NoReg <= r < RmtSize
  }

  predicate WellFormed(t: TraceRecord)
  {
    RegInRange(t.dest) && RegInRange(t.src1) && RegInRange(t.src2)
  }

  /** The nine stages, each with its own residency counter. */
  datatype Stage = FE | DE | RN | RR | DI | IS | EX | WB | RT

  /** The cycle an instruction was fetched and the cycles it spent in each stage. */
  datatype Timing = Timing(
    beginCycle: nat,
    feTime: nat, deTime: nat, rnTime: nat, rrTime: nat, diTime: nat,
    isTime: nat, exTime: nat, wbTime: nat, rtTime: nat)

  /** An instruction record. `dest`, `src1` and `src2` are the working operands
      (an architectural register before rename, a ROB tag after it, or NoReg);
      `ogDest`, `ogSrc1` and `ogSrc2` keep the architectural registers. */
  datatype Instruction = Instruction(
    pc: nat, opType: int,
    dest: int, src1: int, src2: int,
    src1Ready: bool, src2Ready: bool,
    age: nat, execTime: nat, writeBack: bool,
    ogDest: int, ogSrc1: int, ogSrc2: int,
    robTag: nat, timing: Timing)

  datatype RobEntry = RobEntry(pc: nat, ready: bool, dest: int, tag: nat)

  datatype RmtEntry = RmtEntry(valid: bool, robTag: nat)

  /** The timing record of a freshly declared instruction: every count is zero. */
  function FreshTiming(cycle: nat): (t: Timing)
    ensures t.beginCycle == cycle
    ensures t.feTime == t.deTime == t.rnTime == t.rrTime == t.diTime == 0
    ensures t.isTime == t.exTime == t.wbTime == t.rtTime == 0
  {
    Timing(cycle, 0, 0, 0, 0, 0, 0, 0, 0, 0)
  }

  /** One more cycle of residency in stage `st`. */
  function Tick(t: Timing, st: Stage): Timing
  {
    match st
    case FE => t.(feTime := t.feTime + 1)
    case DE => t.(deTime := t.deTime + 1)
    case RN => t.(rnTime := t.rnTime + 1)
    case RR => t.(rrTime := t.rrTime + 1)
    case DI => t.(diTime := t.diTime + 1)
    case IS => t.(isTime := t.isTime + 1)
    case EX => t.(exTime := t.exTime + 1)
    case WB => t.(wbTime := t.wbTime + 1)
    case RT => t.(rtTime := t.rtTime + 1)
  }

  function Bumped(i: Instruction, st: Stage): Instruction
  {
    i.(timing := Tick(i.timing, st))
  }

  /** Every instruction of a stage buffer spends one more cycle in it. */
  function TickAll(buf: seq<Instruction>, st: Stage): (r: seq<Instruction>)
    ensures |r| == |buf|
    ensures forall k :: 0 <= k < |buf| ==> r[k] == Bumped(buf[k], st)
  {
    seq(|buf|, k requires 0 <= k < |buf| => Bumped(buf[k], st))
  }

  /** The record fetch builds from a trace line. */
  function NewInstruction(rec: TraceRecord, age: nat, cycle: nat): (i: Instruction)
    ensures i.pc == rec.pc && i.opType == rec.opType && i.age == age
    ensures i.dest == i.ogDest == rec.dest
    ensures i.src1 == i.ogSrc1 == rec.src1
    ensures i.src2 == i.ogSrc2 == rec.src2
    ensures !i.src1Ready && !i.src2Ready && !i.writeBack && i.execTime == 0
    ensures i.timing == FreshTiming(cycle).(feTime := 1)
  {
    Instruction(rec.pc, rec.opType, rec.dest, rec.src1, rec.src2,
                false, false, age, 0, false,
                rec.dest, rec.src1, rec.src2,
                0, Tick(FreshTiming(cycle), FE))
  }
}
