/** The Universal Machine interpreter (src/cpu.rs).

    The machine state is an immutable record; one fetch-decode-dispatch
    iteration of `CPU::execute` is the pure function `Step`, and the loop
    itself is `Execute`, bounded by a fuel argument. A Rust panic (an index
    out of bounds, `unreachable!`, a division by zero) is a `Crash` result.
 */
module Cpu {
  import opened Words
  import opened Instruction

  /** `[u32; 8]` */
  type Registers = r: seq<u32> | |r| == 8 witness [0, 0, 0, 0, 0, 0, 0, 0]

  /** The segment table; segment 0 is never removed, so it always exists. */
  type Heap = h: seq<seq<u32>> | |h| >= 1 witness [[]]

  datatype State = State(
    reg: Registers,
    heap: Heap,
    input: seq<u32>,
    freeList: seq<u32>,
    pc: nat)

  /** What `execute` hands back to its caller. `Output` carries the byte
      `reg[c] as u8`. */
  datatype ExitCode = Output(byte: u8) | NeedInput | Halted

  /** The ways the Rust code panics. */
  datatype Fault =
    | PcOutOfBounds
    | InvalidOperator(code: nat)
    | DivisionByZero
    | SegmentOutOfBounds
    | OffsetOutOfBounds

  datatype StepResult =
    | Continue(next: State)
    | Suspend(code: ExitCode, next: State)
    | Crash(fault: Fault)

  /** Every handle on the free list names an existing segment: `free` only
      pushes a handle after indexing the heap with it. */
  ghost predicate Valid(s: State) {
    forall k :: 0 <= k < |s.freeList| ==> s.freeList[k] < |s.heap|
  }

  function Zeros(n: nat): (z: seq<u32>)
    ensures |z| == n
    ensures forall k :: 0 <= k < n ==> z[k] == 0
  {
    seq(n, _ => 0)
  }

  /** `Vec::resize(n, 0)`: keeps the first n words and pads with zeros. */
  function Resize(seg: seq<u32>, n: nat): (r: seq<u32>)
    ensures |r| == n
    ensures forall k :: 0 <= k < n ==> r[k] == if k < |seg| then seg[k] else 0
  {
    if n <= |seg| then seg[..n] else seg + Zeros(n - |seg|)
  }

  /** `CPU::new` */
  function New(program: seq<u32>): (s: State)
    ensures Valid(s)
    ensures forall k :: 0 <= k < 8 ==> s.reg[k] == 0
    ensures s.heap == [program] && s.pc == 0
    ensures s.input == [] && s.freeList == []
  {
    State([0, 0, 0, 0, 0, 0, 0, 0], [program], [], [], 0)
  }

  /** Register r set to v; nothing else changes. */
  function SetReg(s: State, r: RegIndex, v: u32): (t: State)
    ensures OnlyRegisterChanged(s, t, r) && t.reg[r] == v && t.pc == s.pc
  {
    s.(reg := s.reg[r := v])
  }

  /** A segment handle is fresh for `alloc` when the heap has no segment
      at that index or the segment there is empty. */
  ghost predicate EmptyAt(s: State, h: nat) {
    h >= |s.heap| || s.heap[h] == []
  }

  /** `CPU::alloc`: pops the most recently freed handle, or appends a new
      segment. The handle of a new segment is `heap.len() as u32 - 1`,
      computed with wrapping arithmetic. */
  function Alloc(s: State, size: u32): (res: (u32, State))
    requires Valid(s)
    ensures var (h, t) := res;
      && Valid(t)
      && t.reg == s.reg && t.input == s.input && t.pc == s.pc
      && (|s.freeList| > 0 ==>
            && h == s.freeList[|s.freeList| - 1]
            && t.freeList == s.freeList[..|s.freeList| - 1]
            && |t.heap| == |s.heap|)
      && (|s.freeList| == 0 ==>
            && t.freeList == []
            && |t.heap| == |s.heap| + 1
            && (|s.heap| < WORD ==> h == |s.heap|))
      && (|s.freeList| > 0 || |s.heap| < WORD ==>
            && h < |t.heap|
            && |t.heap[h]| == size
            && (EmptyAt(s, h) ==> t.heap[h] == Zeros(size))
            && forall j :: 0 <= j < |s.heap| && j != h ==> t.heap[j] == s.heap[j])
  {
    if |s.freeList| > 0 then
      var i := s.freeList[|s.freeList| - 1];
      (i, s.(heap := s.heap[i := Resize(s.heap[i], size)],
             freeList := s.freeList[..|s.freeList| - 1]))
    else
      var heap' := s.heap + [Zeros(size)];
      ((|heap'| % WORD + WORD - 1) % WORD, s.(heap := heap'))
  }

  /** `CPU::free`: empties the segment and pushes its handle. */
  function Free(s: State, i: u32): (r: StepResult)
    requires Valid(s)
    ensures r.Continue? <==> i < |s.heap|
    ensures r.Crash? ==> r.fault == SegmentOutOfBounds
    ensures r.Continue? ==>
      var t := r.next;
      && Valid(t)
      && t.reg == s.reg && t.input == s.input && t.pc == s.pc
      && |t.heap| == |s.heap| && t.heap[i] == []
      && (forall j :: 0 <= j < |s.heap| && j != i ==> t.heap[j] == s.heap[j])
      && t.freeList == s.freeList + [i]
  {
    if i < |s.heap| then
      Continue(s.(heap := s.heap[i := []], freeList := s.freeList + [i]))
    else
      Crash(SegmentOutOfBounds)
  }

  /** `CPU::jump`: loads a copy of segment i as the program unless i is 0,
      and moves the program counter. */
  function Jump(s: State, i: u32, newPc: u32): (r: StepResult)
    requires Valid(s)
    ensures r.Continue? <==> i == 0 || i < |s.heap|
    ensures r.Crash? ==> r.fault == SegmentOutOfBounds
    ensures r.Continue? ==>
      var t := r.next;
      && Valid(t)
      && t.pc == newPc
      && t.reg == s.reg && t.input == s.input && t.freeList == s.freeList
      && |t.heap| == |s.heap|
      && (forall j :: 1 <= j < |s.heap| ==> t.heap[j] == s.heap[j])
      && (i == 0 ==> t.heap[0] == s.heap[0])
      && (i > 0 ==> t.heap[0] == s.heap[i])
  {
    if i == 0 then
      Continue(s.(pc := newPc))
    else if i < |s.heap| then
      Continue(s.(pc := newPc, heap := s.heap[0 := s.heap[i]]))
    else
      Crash(SegmentOutOfBounds)
  }

  /** `CPU::push_str`: queues the bytes of a line and a newline. */
  function PushStr(s: State, line: seq<u8>): (t: State)
    ensures |t.input| == |s.input| + |line| + 1
    ensures t.input[..|s.input|] == s.input
    ensures t.input[|s.input|..] == line + [10]
    ensures t.reg == s.reg && t.heap == s.heap && t.freeList == s.freeList && t.pc == s.pc
  {
    s.(input := s.input + line + [10])
  }

  /** The operators that write one register and touch nothing else. */
  predicate WritesOneRegister(op: Op) {
    op in {CMOVE, RMEM, ADD, MUL, DIV, NAND, IMM}
  }

  /** The register a `WritesOneRegister` instruction may change. */
  function Dest(w: u32): RegIndex {
    if OpOf(w) == IMM then ImmReg(w) else FieldA(w)
  }

  /** t differs from s at most in register r and the program counter. */
  ghost predicate OnlyRegisterChanged(s: State, t: State, r: RegIndex) {
    && t.heap == s.heap && t.input == s.input && t.freeList == s.freeList
    && forall k :: 0 <= k < 8 && k != r ==> t.reg[k] == s.reg[k]
  }

  /** Dispatch of CMOVE, RMEM, ADD, MUL, DIV, NAND and IMM (src/cpu.rs:40-45, 50). */
  function WriteRegister(s: State, w: u32): (r: StepResult)
    requires WritesOneRegister(OpOf(w))
    ensures !r.Suspend?
    ensures r.Continue? ==> OnlyRegisterChanged(s, r.next, Dest(w)) && r.next.pc == s.pc
    ensures OpOf(w) == DIV ==> (r.Crash? <==> s.reg[FieldC(w)] == 0)
    ensures OpOf(w) == RMEM ==>
      (r.Continue? <==> s.reg[FieldB(w)] < |s.heap| && s.reg[FieldC(w)] < |s.heap[s.reg[FieldB(w)]]|)
    ensures OpOf(w) != DIV && OpOf(w) != RMEM ==> r.Continue?
    ensures OpOf(w) == CMOVE ==>
      r.next.reg[FieldA(w)] == if s.reg[FieldC(w)] != 0 then s.reg[FieldB(w)] else s.reg[FieldA(w)]
    ensures OpOf(w) == IMM ==> r.next.reg[ImmReg(w)] == ImmValue(w)
  {
    var a, b, c := FieldA(w), FieldB(w), FieldC(w);
    match OpOf(w)
    case CMOVE => Continue(if s.reg[c] != 0 then SetReg(s, a, s.reg[b]) else s)
    case ADD => Continue(SetReg(s, a, AddWrap(s.reg[b], s.reg[c])))
    case MUL => Continue(SetReg(s, a, MulWrap(s.reg[b], s.reg[c])))
    case DIV =>
      if s.reg[c] == 0 then Crash(DivisionByZero)
      else Continue(SetReg(s, a, s.reg[b] / s.reg[c]))
    case NAND => Continue(SetReg(s, a, Nand(s.reg[b], s.reg[c])))
    case RMEM =>
      var i, j := s.reg[b], s.reg[c];
      if i >= |s.heap| then Crash(SegmentOutOfBounds)
      else if j >= |s.heap[i]| then Crash(OffsetOutOfBounds)
      else Continue(SetReg(s, a, s.heap[i][j]))
    case IMM => Continue(SetReg(s, ImmReg(w), ImmValue(w)))
  }

  /** WMEM (src/cpu.rs:46): stores `reg[c]` at offset `reg[b]` of segment
      `reg[a]`; nothing else changes. */
  function WriteMemory(s: State, w: u32): (r: StepResult)
    requires Valid(s)
    ensures !r.Suspend?
    ensures r.Continue? <==> s.reg[FieldA(w)] < |s.heap| && s.reg[FieldB(w)] < |s.heap[s.reg[FieldA(w)]]|
    ensures r.Continue? ==>
      var t, i, j := r.next, s.reg[FieldA(w)], s.reg[FieldB(w)];
      && Valid(t)
      && t.reg == s.reg && t.input == s.input && t.freeList == s.freeList && t.pc == s.pc
      && |t.heap| == |s.heap| && |t.heap[i]| == |s.heap[i]|
      && t.heap[i][j] == s.reg[FieldC(w)]
      && (forall k :: 0 <= k < |s.heap[i]| && k != j ==> t.heap[i][k] == s.heap[i][k])
      && (forall h :: 0 <= h < |s.heap| && h != i ==> t.heap[h] == s.heap[h])
  {
    var i, j := s.reg[FieldA(w)], s.reg[FieldB(w)];
    if i >= |s.heap| then Crash(SegmentOutOfBounds)
    else if j >= |s.heap[i]| then Crash(OffsetOutOfBounds)
    else Continue(s.(heap := s.heap[i := s.heap[i][j := s.reg[FieldC(w)]]]))
  }

  /** The word at the program counter. */
  function Current(s: State): u32
    requires s.pc < |s.heap[0]|
  {
    s.heap[0][s.pc]
  }

  /** Dispatch of the instruction w; s is the state after pc was advanced
      past it (src/cpu.rs:39-61). */
  function Dispatch(s: State, w: u32): (r: StepResult)
    requires Valid(s) && s.pc >= 1
    ensures !r.Crash? ==> Valid(r.next)
    ensures OpOf(w).INVALID? <==> r == Crash(InvalidOperator(Opcode(w)))
    ensures r.Suspend? <==> (OpOf(w) in {HALT, OUT} || (OpOf(w) == IN && s.input == []))
    ensures r.Suspend? ==> (r.code == NeedInput <==> OpOf(w) == IN)
    ensures r.Suspend? && r.code == NeedInput ==> r.next == s.(pc := s.pc - 1)
    ensures r.Suspend? && r.code != NeedInput ==> r.next == s && (r.code == Halted <==> OpOf(w) == HALT)
    ensures r.Suspend? && r.code.Output? ==> r.code.byte == s.reg[FieldC(w)] % 256
    ensures r.Continue? && OpOf(w) != JUMP ==> r.next.pc == s.pc
    ensures r.Continue? && WritesOneRegister(OpOf(w)) ==> OnlyRegisterChanged(s, r.next, Dest(w))
  {
    var b, c := FieldB(w), FieldC(w);
    match OpOf(w)
    case CMOVE => WriteRegister(s, w)
    case ADD => WriteRegister(s, w)
    case MUL => WriteRegister(s, w)
    case DIV => WriteRegister(s, w)
    case NAND => WriteRegister(s, w)
    case RMEM => WriteRegister(s, w)
    case IMM => WriteRegister(s, w)
    case WMEM => WriteMemory(s, w)
    case ALLOC =>
      var (h, t) := Alloc(s, s.reg[c]);
      Continue(SetReg(t, b, h))
    case FREE => Free(s, s.reg[c])
    case JUMP => Jump(s, s.reg[b], s.reg[c])
    case HALT => Suspend(Halted, s)
    case OUT => Suspend(Output(s.reg[c] % 256), s)
    case IN =>
      if |s.input| > 0 then Continue(SetReg(s.(input := s.input[1..]), c, s.input[0]))
      else Suspend(NeedInput, s.(pc := s.pc - 1))
    case INVALID(n) => Crash(InvalidOperator(n))
  }

  /** One iteration of the loop in `CPU::execute`: fetch `heap[0][pc]`,
      advance pc, dispatch (src/cpu.rs:34-61). */
  function Step(s: State): (r: StepResult)
    requires Valid(s)
    ensures r == Crash(PcOutOfBounds) <==> s.pc >= |s.heap[0]|
    ensures !r.Crash? ==> Valid(r.next)
    ensures r.Suspend? && r.code == NeedInput ==> r.next == s && s.input == []
    ensures r.Suspend? && r.code != NeedInput ==> r.next == s.(pc := s.pc + 1)
  {
    if s.pc >= |s.heap[0]| then Crash(PcOutOfBounds)
    else Dispatch(s.(pc := s.pc + 1), Current(s))
  }

  /** An `execute` that asks for input stops on an IN instruction, so the
      same instruction runs again once input is pushed. */
  lemma NeedInputStopsAtIn(s: State)
    requires Valid(s)
    ensures Step(s).Suspend? && Step(s).code == NeedInput ==>
      s.pc < |s.heap[0]| && OpOf(Current(s)) == IN
  {
  }

  datatype RunResult =
    | Stopped(code: ExitCode, next: State)
    | Crashed(fault: Fault)
    | OutOfFuel(next: State)

  /** What the loop may rely on about a step result: the next state is
      valid, and a NeedInput leaves the machine on an IN with no input. */
  ghost predicate Resumable(r: StepResult) {
    && (!r.Crash? ==> Valid(r.next))
    && (r.Suspend? && r.code == NeedInput ==>
          r.next.input == [] && r.next.pc < |r.next.heap[0]| && OpOf(Current(r.next)) == IN)
  }

  /** `CPU::execute`: steps until an `ExitCode` is produced. The loop is
      unbounded in the source; here at most `fuel` steps are taken. */
  function Execute(s: State, fuel: nat): (r: RunResult)
    requires Valid(s)
    ensures !r.Crashed? ==> Valid(r.next)
    ensures r.Stopped? && r.code == NeedInput ==>
      r.next.input == [] && r.next.pc < |r.next.heap[0]| && OpOf(Current(r.next)) == IN
    decreases fuel, 0
  {
    if fuel == 0 then OutOfFuel(s)
    else
      NeedInputStopsAtIn(s);
      Resume(Step(s), fuel - 1)
  }

  /** The rest of one turn of the loop, once the step result is known. */
  function Resume(r: StepResult, fuel: nat): (e: RunResult)
    requires Resumable(r)
    ensures !e.Crashed? ==> Valid(e.next)
    ensures e.Stopped? && e.code == NeedInput ==>
      e.next.input == [] && e.next.pc < |e.next.heap[0]| && OpOf(Current(e.next)) == IN
    decreases fuel, 1
  {
    match r
    case Continue(t) => Execute(t, fuel)
    case Suspend(code, t) => Stopped(code, t)
    case Crash(f) => Crashed(f)
  }

  /** One turn of the `execute` loop. */
  lemma ExecuteUnfold(s: State, f: nat)
    requires Valid(s)
    requires f > 0
    ensures Execute(s, f) == match Step(s)
      case Continue(t) => Execute(t, f - 1)
      case Suspend(code, t) => Stopped(code, t)
      case Crash(e) => Crashed(e)
  {
    NeedInputStopsAtIn(s);
    assert Execute(s, f) == Resume(Step(s), f - 1);
  }

  /** More fuel does not change a run that already finished. */
  lemma {:induction false} ExecuteFuelMonotone(s: State, f: nat, g: nat)
    requires Valid(s)
    requires f <= g
    requires !Execute(s, f).OutOfFuel?
    ensures Execute(s, g) == Execute(s, f)
    decreases f, 0
  {
    var r := StepThenResume(s, f, g);
    ResumeFuelMonotone(r, f - 1, g - 1);
  }

  /** Both runs take the same first step and resume from it. */
  lemma StepThenResume(s: State, f: nat, g: nat) returns (r: StepResult)
    requires Valid(s) && 0 < f <= g
    ensures Resumable(r) && r == Step(s)
    ensures Execute(s, f) == Resume(r, f - 1) && Execute(s, g) == Resume(r, g - 1)
  {
    r := Step(s);
    ExecuteResumes(s, f);
    ExecuteResumes(s, g);
  }

  lemma ExecuteResumes(s: State, f: nat)
    requires Valid(s) && f > 0
    ensures Resumable(Step(s)) && Execute(s, f) == Resume(Step(s), f - 1)
  {
    NeedInputStopsAtIn(s);
  }

  lemma {:induction false} ResumeFuelMonotone(r: StepResult, f: nat, g: nat)
    requires Resumable(r)
    requires f <= g
    requires !Resume(r, f).OutOfFuel?
    ensures Resume(r, g) == Resume(r, f)
    decreases f, 1
  {
    if r.Continue? {
      ExecuteFuelMonotone(r.next, f, g);
    }
  }
}
