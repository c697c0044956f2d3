/** Properties of the Universal Machine that relate several operations of
    src/cpu.rs: allocation after a free, the input retry protocol, the
    frame of one step, and the order of outputs.
 */
module CpuLemmas {
  import opened Words
  import opened Instruction
  import opened Cpu

  /** Freeing a segment and allocating again hands back the same handle,
      resized to the new size and zero-filled. */
  lemma AllocFreeAllocReuses(s: State, n1: u32, n2: u32)
    requires Valid(s)
    requires |s.freeList| > 0 || |s.heap| < WORD
    ensures
      var (h, t) := Alloc(s, n1);
      var u := Free(t, h);
      && u.Continue?
      && var (h2, v) := Alloc(u.next, n2);
      && h2 == h
      && v.heap[h] == Zeros(n2)
      && v.freeList == t.freeList
      && |v.heap| == |t.heap|
  {
    var (h, t) := Alloc(s, n1);
    var u := Free(t, h);
    assert u.Continue? && u.next.heap[h] == [];
    var (h2, v) := Alloc(u.next, n2);
    assert u.next.freeList == t.freeList + [h];
    assert h2 == h;
    assert EmptyAt(u.next, h);
  }

  /** One step of an instruction that writes one register leaves the heap,
      the input queue and every other register as they were, and moves to
      the next instruction. */
  lemma StepWritesOnlyDestination(s: State)
    requires Valid(s)
    requires s.pc < |s.heap[0]|
    requires WritesOneRegister(OpOf(Current(s)))
    requires Step(s).Continue?
    ensures OnlyRegisterChanged(s, Step(s).next, Dest(Current(s)))
    ensures Step(s).next.pc == s.pc + 1
  {
    var w := Current(s);
    var t := s.(pc := s.pc + 1);
    StepDispatches(s, t, w);
    assert Valid(t);
    DispatchWritesRegister(t, w);
  }

  /** A step with pc in range dispatches the current word w from the
      state t, which is s with pc advanced. */
  lemma StepDispatches(s: State, t: State, w: u32)
    requires Valid(s) && s.pc < |s.heap[0]|
    requires t == s.(pc := s.pc + 1) && w == Current(s)
    ensures Step(s) == Dispatch(t, w)
  {
  }

  /** The register-writing instructions go to `WriteRegister`, which
      changes only the destination register. */
  lemma DispatchWritesRegister(t: State, w: u32)
    requires Valid(t) && t.pc >= 1 && WritesOneRegister(OpOf(w))
    ensures Dispatch(t, w) == WriteRegister(t, w)
    ensures Dispatch(t, w).Continue? ==>
      OnlyRegisterChanged(t, Dispatch(t, w).next, Dest(w)) && Dispatch(t, w).next.pc == t.pc
  {
  }

  /** ADD puts the sum modulo 2^32 in register a. */
  lemma AddValue(s: State, w: u32)
    requires OpOf(w) == ADD
    ensures WriteRegister(s, w).Continue?
    ensures WriteRegister(s, w).next.reg[FieldA(w)] == (s.reg[FieldB(w)] as int + s.reg[FieldC(w)]) % 0x1_0000_0000
  {
  }

  /** MUL puts the product modulo 2^32 in register a. */
  lemma MulValue(s: State, w: u32)
    requires OpOf(w) == MUL
    ensures WriteRegister(s, w).Continue?
    ensures WriteRegister(s, w).next.reg[FieldA(w)] == (s.reg[FieldB(w)] as int * s.reg[FieldC(w)]) % 0x1_0000_0000
  {
  }

  /** DIV by a non-zero register puts the quotient, rounded down, in register a. */
  lemma DivValue(s: State, w: u32)
    requires OpOf(w) == DIV && s.reg[FieldC(w)] != 0
    ensures WriteRegister(s, w).Continue?
    ensures WriteRegister(s, w).next.reg[FieldA(w)] == s.reg[FieldB(w)] / s.reg[FieldC(w)]
  {
  }

  /** RMEM of an existing word puts that word in register a. */
  lemma LoadValue(s: State, w: u32)
    requires OpOf(w) == RMEM
    requires s.reg[FieldB(w)] < |s.heap| && s.reg[FieldC(w)] < |s.heap[s.reg[FieldB(w)]]|
    ensures WriteRegister(s, w).Continue?
    ensures WriteRegister(s, w).next.reg[FieldA(w)] == s.heap[s.reg[FieldB(w)]][s.reg[FieldC(w)]]
  {
  }

  /** NAND clears bit k of register a exactly when bit k is set in both
      operands. */
  lemma NandValue(s: State, w: u32, k: nat)
    requires OpOf(w) == NAND && k < 32
    ensures WriteRegister(s, w).Continue?
    ensures var b, c := s.reg[FieldB(w)], s.reg[FieldC(w)];
      Bit(WriteRegister(s, w).next.reg[FieldA(w)], k) == if Bit(b, k) == 1 && Bit(c, k) == 1 then 0 else 1
  {
    assert WriteRegister(s, w).next.reg[FieldA(w)] == Nand(s.reg[FieldB(w)], s.reg[FieldC(w)]);
    NandMeaning(s.reg[FieldB(w)], s.reg[FieldC(w)], k);
  }

  /** An IN that found the queue empty succeeds once a line is pushed: it
      reads the first byte of the line (or the newline) into register c
      and moves past the IN. */
  lemma InResumesAfterPush(s: State, line: seq<u8>)
    requires Valid(s)
    requires Step(s).Suspend? && Step(s).code == NeedInput
    ensures Valid(PushStr(s, line))
    ensures
      var r := Step(PushStr(s, line));
      && r.Continue?
      && r.next.reg[FieldC(Current(s))] == (line + [10])[0]
      && r.next.input == (line + [10])[1..]
      && r.next.pc == s.pc + 1
      && r.next.heap == s.heap
  {
    NeedInputStopsAtIn(s);
    var t := PushStr(s, line);
    assert t.input == line + [10];
    assert Step(t) == Dispatch(t.(pc := t.pc + 1), Current(t));
  }

  /** Executing an immediate load. */
  lemma StepImm(s: State, r: RegIndex, v: nat)
    requires Valid(s) && v < 0x200_0000
    requires s.pc < |s.heap[0]| && Current(s) == EncodeImm(r, v)
    ensures Step(s) == Continue(s.(pc := s.pc + 1, reg := s.reg[r := v]))
  {
    DecodeEncodeImm(r, v);
    assert Step(s) == Dispatch(s.(pc := s.pc + 1), Current(s));
  }

  /** Executing OUT or HALT. */
  lemma StepSuspends(s: State, op: nat, c: RegIndex)
    requires Valid(s) && (op == 7 || op == 10)
    requires s.pc < |s.heap[0]| && Current(s) == EncodeABC(op, 0, 0, c)
    ensures Step(s) == Suspend(if op == 7 then Halted else Output(s.reg[c] % 256), s.(pc := s.pc + 1))
  {
    DecodeEncodeABC(op, 0, 0, c);
    assert Step(s) == Dispatch(s.(pc := s.pc + 1), Current(s));
  }

  /** A program that loads 'a', 'b', 'c' in turn and outputs each. */
  const ABC: seq<u32> := [
    EncodeImm(0, 97), EncodeABC(10, 0, 0, 0),
    EncodeImm(0, 98), EncodeABC(10, 0, 0, 0),
    EncodeImm(0, 99), EncodeABC(10, 0, 0, 0),
    EncodeABC(7, 0, 0, 0)]

  /** An `execute` call whose first step continues goes on from there. */
  lemma ExecuteOnContinue(s: State, f: nat, t: State)
    requires Valid(s) && f > 0 && Step(s) == Continue(t)
    ensures Execute(s, f) == Execute(t, f - 1)
  {
    ExecuteResumes(s, f);
  }

  /** An `execute` call whose first step suspends returns at once. */
  lemma ExecuteOnSuspend(s: State, f: nat, code: ExitCode, t: State)
    requires Valid(s) && f > 0 && Step(s) == Suspend(code, t)
    ensures Execute(s, f) == Stopped(code, t)
  {
    ExecuteResumes(s, f);
  }

  /** One `execute` call that loads a byte and outputs it. */
  lemma LoadAndOutput(s: State, v: nat)
    requires Valid(s) && v < 256
    requires s.pc + 1 < |s.heap[0]|
    requires Current(s) == EncodeImm(0, v)
    requires s.heap[0][s.pc + 1] == EncodeABC(10, 0, 0, 0)
    ensures Execute(s, 2) == Stopped(Output(v), s.(pc := s.pc + 2, reg := s.reg[0 := v]))
  {
    var t := s.(pc := s.pc + 1, reg := s.reg[0 := v]);
    assert t.reg[0] % 256 == v;
    assert Current(t) == EncodeABC(10, 0, 0, 0);
    StepImm(s, 0, v);
    ExecuteOnContinue(s, 2, t);
    StepSuspends(t, 10, 0);
    ExecuteOnSuspend(t, 1, Output(v), t.(pc := t.pc + 1));
  }

  /** The state after the k-th load-and-output pair of ABC. */
  function AbcAfter(k: nat): State
    requires k <= 3
  {
    var s := New(ABC);
    if k == 0 then s
    else s.(pc := 2 * k, reg := s.reg[0 := 96 + k])
  }

  lemma AbcValid(k: nat)
    requires k <= 3
    ensures Valid(AbcAfter(k))
  {
  }

  lemma AbcPair(k: nat)
    requires k < 3
    ensures Valid(AbcAfter(k))
    ensures Execute(AbcAfter(k), 2) == Stopped(Output(97 + k), AbcAfter(k + 1))
  {
    var s := AbcAfter(k);
    AbcValid(k);
    assert s.heap[0] == ABC;
    assert ABC[2 * k] == EncodeImm(0, 97 + k) && ABC[2 * k + 1] == EncodeABC(10, 0, 0, 0);
    LoadAndOutput(s, 97 + k);
    assert s.(pc := s.pc + 2, reg := s.reg[0 := 97 + k]) == AbcAfter(k + 1);
  }

  lemma AbcHalts()
    ensures Valid(AbcAfter(3))
    ensures Execute(AbcAfter(3), 1) == Stopped(Halted, AbcAfter(3).(pc := 7))
  {
    var s := AbcAfter(3);
    StepSuspends(s, 7, 0);
    ExecuteOnSuspend(s, 1, Halted, s.(pc := 7));
  }

  /** Three calls of `execute` on ABC return Output('a'), Output('b'),
      Output('c') in that order, and a fourth returns Halted. */
  lemma OutputsInOrder()
    ensures
      var r1 := Execute(New(ABC), 2);
      && r1.Stopped? && r1.code == Output(97)
      && var r2 := Execute(r1.next, 2);
      && r2.Stopped? && r2.code == Output(98)
      && var r3 := Execute(r2.next, 2);
      && r3.Stopped? && r3.code == Output(99)
      && Execute(r3.next, 1).Stopped? && Execute(r3.next, 1).code == Halted
  {
    AbcPair(0);
    AbcPair(1);
    AbcPair(2);
    AbcHalts();
  }
}
