/** The self-test in `main` of src/bin/balance-vm.rs: the twelve-byte
    multiplication program, started with 3 in memory bytes 0 and 1, stops
    with their product 9 in byte 2. The run is followed instruction by
    instruction through the 24 passes of the loop.
 */
module BalanceTest {
  import opened Words
  import opened Balance

  /** `TEST_MULT_PROGRAM`, written in decimal. */
  const TEST_MULT_PROGRAM: seq<Byte> := [98, 124, 127, 57, 114, 0, 70, 127, 124, 1, 61, 30]

  /** n zero bytes. */
  function ZeroBytes(n: nat): (z: seq<Byte>)
    ensures |z| == n && forall a :: 0 <= a < n ==> z[a] == 0
  {
    seq(n, _ => 0)
  }

  /** `mem[0] = 3; mem[1] = 3`, the rest zero. */
  const INIT_MEM: seq<Byte> := [3, 3] + ZeroBytes(254)

  /** The machine `main` builds. */
  function Initial(): (m: Machine)
    ensures Shaped(m) && m.ip < |m.code|
  {
    Machine(0, 1, [0, 1, 2, 3], [4, 5], INIT_MEM, TEST_MULT_PROGRAM)
  }

  /** Whether address a is one of the five the program ever stores to. */
  predicate Touched(a: nat) {
    a == 0 || a == 1 || a == 2 || a == 5 || a == 244
  }

  /** A memory that holds the given bytes at the five touched addresses
      and zero everywhere else. */
  function Mem(v0: Byte, v1: Byte, v2: Byte, v5: Byte, v244: Byte): (mem: seq<Byte>)
    ensures |mem| == 256
    ensures mem[0] == v0 && mem[1] == v1 && mem[2] == v2 && mem[5] == v5 && mem[244] == v244
    ensures forall a :: 0 <= a < 256 && !Touched(a) ==> mem[a] == 0
  {
    seq(256, a => if a == 0 then v0 else if a == 1 then v1 else if a == 2 then v2 else if a == 5 then v5 else if a == 244 then v244 else 0)
  }

  /** A store to a touched address replaces that one byte of the memory. */
  lemma MemSet(v0: Byte, v1: Byte, v2: Byte, v5: Byte, v244: Byte, a: nat, v: Byte)
    requires Touched(a)
    ensures Mem(v0, v1, v2, v5, v244)[a := v]
      == Mem(if a == 0 then v else v0, if a == 1 then v else v1, if a == 2 then v else v2,
             if a == 5 then v else v5, if a == 244 then v else v244)
  {
  }

  /** The memory `main` builds, in the form above. */
  lemma InitialMemory()
    ensures INIT_MEM == Mem(3, 3, 0, 0, 0)
  {
  }

  // The machine before each pass of the loop.
  const S0: Machine := Machine(0, 1, [0, 1, 2, 3], [4, 5], Mem(3, 3, 0, 0, 0), TEST_MULT_PROGRAM)
  const S1: Machine := Machine(1, 1, [4, 1, 2, 3], [2, 5], Mem(3, 3, 0, 0, 0), TEST_MULT_PROGRAM)
  const S2: Machine := Machine(2, 1, [1, 2, 3, 0], [2, 5], Mem(3, 3, 0, 0, 0), TEST_MULT_PROGRAM)
  const S3: Machine := Machine(3, 1, [2, 3, 0, 2], [5, 0], Mem(3, 3, 0, 0, 0), TEST_MULT_PROGRAM)
  const S4: Machine := Machine(4, 1, [2, 3, 0, 2], [5, 0], Mem(3, 3, 0, 253, 0), TEST_MULT_PROGRAM)
  const S5: Machine := Machine(5, 1, [3, 5, 0, 2], [244, 0], Mem(3, 3, 0, 253, 0), TEST_MULT_PROGRAM)
  const S6: Machine := Machine(6, 1, [3, 5, 0, 2], [244, 0], Mem(3, 3, 0, 253, 0), TEST_MULT_PROGRAM)
  const S7: Machine := Machine(7, 1, [3, 5, 0, 2], [244, 0], Mem(3, 3, 0, 253, 1), TEST_MULT_PROGRAM)
  const S8: Machine := Machine(8, 1, [5, 0, 2, 244], [0, 2], Mem(3, 3, 0, 253, 1), TEST_MULT_PROGRAM)
  const S9: Machine := Machine(9, 1, [0, 2, 244, 1], [0, 2], Mem(3, 3, 0, 253, 1), TEST_MULT_PROGRAM)
  const S10: Machine := Machine(10, 1, [0, 2, 244, 1], [0, 2], Mem(3, 3, 0, 253, 1), TEST_MULT_PROGRAM)
  const S11: Machine := Machine(11, 1, [0, 2, 244, 1], [0, 2], Mem(2, 3, 3, 253, 1), TEST_MULT_PROGRAM)
  const S12: Machine := Machine(9, 254, [0, 2, 244, 1], [0, 2], Mem(2, 3, 3, 253, 1), TEST_MULT_PROGRAM)
  const S13: Machine := Machine(10, 1, [0, 2, 244, 1], [0, 2], Mem(2, 3, 3, 253, 1), TEST_MULT_PROGRAM)
  const S14: Machine := Machine(11, 1, [0, 2, 244, 1], [0, 2], Mem(1, 3, 6, 253, 1), TEST_MULT_PROGRAM)
  const S15: Machine := Machine(9, 254, [0, 2, 244, 1], [0, 2], Mem(1, 3, 6, 253, 1), TEST_MULT_PROGRAM)
  const S16: Machine := Machine(10, 1, [0, 2, 244, 1], [0, 2], Mem(1, 3, 6, 253, 1), TEST_MULT_PROGRAM)
  const S17: Machine := Machine(11, 1, [0, 2, 244, 1], [0, 2], Mem(0, 3, 9, 253, 1), TEST_MULT_PROGRAM)
  const S18: Machine := Machine(0, 1, [0, 2, 244, 1], [0, 2], Mem(0, 3, 9, 253, 1), TEST_MULT_PROGRAM)
  const S19: Machine := Machine(1, 1, [0, 2, 244, 1], [2, 2], Mem(0, 3, 9, 253, 1), TEST_MULT_PROGRAM)
  const S20: Machine := Machine(2, 1, [2, 244, 1, 252], [2, 2], Mem(0, 3, 9, 253, 1), TEST_MULT_PROGRAM)
  const S21: Machine := Machine(3, 1, [244, 1, 252, 2], [2, 1], Mem(0, 3, 9, 253, 1), TEST_MULT_PROGRAM)
  const S22: Machine := Machine(4, 1, [244, 1, 252, 2], [2, 1], Mem(0, 3, 9, 253, 1), TEST_MULT_PROGRAM)
  const S23: Machine := Machine(5, 1, [1, 2, 252, 2], [230, 1], Mem(0, 3, 9, 253, 1), TEST_MULT_PROGRAM)

  lemma Word57()
    ensures Decode(57) == Inst(57, 249, 1, 2, 1)
  {
  }

  lemma Word61()
    ensures Decode(61) == Inst(61, 253, 1, 3, 1)
  {
  }

  lemma Word70()
    ensures Decode(70) == Inst(70, 6, 0, 1, 2)
  {
  }

  lemma Word98()
    ensures Bit(98, 0) == 0 && Bit(98, 1) == 1 && Bit(98, 2) == 0 && Bit(98, 3) == 0 && Bit(98, 4) == 0 && Bit(98, 5) == 1
    ensures Selected(98, 0) == [1, 5] && Decode(98).imm == 2
    ensures Cycle(98) == [1, 5, 1]
  {
  }

  lemma Word114()
    ensures Bit(114, 0) == 0 && Bit(114, 1) == 1 && Bit(114, 2) == 0 && Bit(114, 3) == 0 && Bit(114, 4) == 1 && Bit(114, 5) == 1
    ensures Selected(114, 0) == [1, 4, 5] && Decode(114).imm == 242
    ensures Cycle(114) == [1, 4, 5, 1]
  {
  }

  lemma Word124()
    ensures Bit(124, 0) == 0 && Bit(124, 1) == 0 && Bit(124, 2) == 1 && Bit(124, 3) == 1 && Bit(124, 4) == 1 && Bit(124, 5) == 1
    ensures Selected(124, 0) == [2, 3, 4, 5] && Decode(124).imm == 252
    ensures Cycle(124) == [2, 3, 4, 5, 2]
  {
  }

  lemma Word127()
    ensures Bit(127, 0) == 1 && Bit(127, 1) == 1 && Bit(127, 2) == 1 && Bit(127, 3) == 1 && Bit(127, 4) == 1 && Bit(127, 5) == 1
    ensures Selected(127, 0) == [0, 1, 2, 3, 4, 5] && Decode(127).imm == 255
    ensures Cycle(127) == [0, 1, 2, 3, 4, 5, 0]
  {
  }

  /** One pair of the PHYSICS loop. */
  lemma AssignStep(slots: seq<Byte>, l: seq<Byte>, cd: seq<nat>, next: seq<Byte>)
    requires |l| == |slots| && |cd| >= 2 && forall k :: 0 <= k < |cd| ==> cd[k] < |slots|
    requires next == slots[cd[1] := l[cd[0]]]
    ensures Assign(slots, l, cd) == Assign(next, l, cd[1..])
  {
  }

  /** One level of a bitwise operator, from the level below. */
  lemma BitwiseAt(g: Gate, x: nat, y: nat, n: nat, hx: nat, hy: nat, r: nat)
    requires n > 0 && hx == x / 2 && hy == y / 2 && Bitwise(g, hx, hy, n - 1) == r
    ensures Bitwise(g, x, y, n) == 2 * r + GateBit(g, x % 2, y % 2)
  {
  }

  lemma Add0_3()
    ensures ByteAdd(0, 3) == 3
  {
  }

  lemma Add3_0()
    ensures ByteAdd(3, 0) == 3
  {
  }

  lemma Add3_3()
    ensures ByteAdd(3, 3) == 6
  {
  }

  lemma Add3_6()
    ensures ByteAdd(3, 6) == 9
  {
  }

  lemma And253_3()
    ensures ByteAnd(253, 3) == 1
  {
    Pow2Of8();
    BitwiseAt(AndGate, 1, 0, 1, 0, 0, 0);
    BitwiseAt(AndGate, 3, 0, 2, 1, 0, 0);
    BitwiseAt(AndGate, 7, 0, 3, 3, 0, 0);
    BitwiseAt(AndGate, 15, 0, 4, 7, 0, 0);
    BitwiseAt(AndGate, 31, 0, 5, 15, 0, 0);
    BitwiseAt(AndGate, 63, 0, 6, 31, 0, 0);
    BitwiseAt(AndGate, 126, 1, 7, 63, 0, 0);
    BitwiseAt(AndGate, 253, 3, 8, 126, 1, 0);
  }

  lemma Sub0_3()
    ensures ByteSub(0, 3) == 253
  {
  }

  lemma Sub1_1()
    ensures ByteSub(1, 1) == 0
  {
  }

  lemma Sub2_1()
    ensures ByteSub(2, 1) == 1
  {
  }

  lemma Sub3_1()
    ensures ByteSub(3, 1) == 2
  {
  }

  lemma Sub9_0()
    ensures ByteSub(9, 0) == 9
  {
  }

  lemma Xor3_0()
    ensures ByteXor(3, 0) == 3
  {
    Pow2Of8();
    BitwiseAt(XorGate, 0, 0, 1, 0, 0, 0);
    BitwiseAt(XorGate, 0, 0, 2, 0, 0, 0);
    BitwiseAt(XorGate, 0, 0, 3, 0, 0, 0);
    BitwiseAt(XorGate, 0, 0, 4, 0, 0, 0);
    BitwiseAt(XorGate, 0, 0, 5, 0, 0, 0);
    BitwiseAt(XorGate, 0, 0, 6, 0, 0, 0);
    BitwiseAt(XorGate, 1, 0, 7, 0, 0, 0);
    BitwiseAt(XorGate, 3, 0, 8, 1, 0, 1);
  }

  lemma Assign0()
    ensures Assign([5, 4, 3, 2, 1, 0], [5, 4, 3, 2, 1, 2], [1, 5, 1]) == [5, 2, 3, 2, 1, 4]
  {
    AssignStep([5, 4, 3, 2, 1, 0], [5, 4, 3, 2, 1, 2], [1, 5, 1], [5, 4, 3, 2, 1, 4]);
    AssignStep([5, 4, 3, 2, 1, 4], [5, 4, 3, 2, 1, 2], [5, 1], [5, 2, 3, 2, 1, 4]);
  }

  lemma Effect0()
    ensures Bit(98, 5) == 1 && Physics(S0, Decode(98)) == S1.(ip := 0)
  {
    assert Slots(S0) == [5, 4, 3, 2, 1, 0];
    assert Sources(S0, 2) == [5, 4, 3, 2, 1, 2];
    Word98();
    Assign0();
    assert WithSlots(S0, [5, 2, 3, 2, 1, 4]) == S1.(ip := 0);
  }

  lemma Pass0()
    ensures Step(S0) == Next(S1)
  {
    StepPhysics(S0);
    Effect0();
    assert NextIpAsWritten(0, 1, 12) == 1;
  }

  lemma Assign1()
    ensures Assign([5, 2, 3, 2, 1, 4], [5, 2, 3, 2, 1, 0], [2, 3, 4, 5, 2]) == [5, 2, 0, 3, 2, 1]
  {
    AssignStep([5, 2, 3, 2, 1, 4], [5, 2, 3, 2, 1, 0], [2, 3, 4, 5, 2], [5, 2, 3, 3, 1, 4]);
    AssignStep([5, 2, 3, 3, 1, 4], [5, 2, 3, 2, 1, 0], [3, 4, 5, 2], [5, 2, 3, 3, 2, 4]);
    AssignStep([5, 2, 3, 3, 2, 4], [5, 2, 3, 2, 1, 0], [4, 5, 2], [5, 2, 3, 3, 2, 1]);
    AssignStep([5, 2, 3, 3, 2, 1], [5, 2, 3, 2, 1, 0], [5, 2], [5, 2, 0, 3, 2, 1]);
  }

  lemma Effect1()
    ensures Bit(124, 5) == 1 && Physics(S1, Decode(124)) == S2.(ip := 1)
  {
    assert Slots(S1) == [5, 2, 3, 2, 1, 4];
    assert Sources(S1, 252) == [5, 2, 3, 2, 1, 0];
    Word124();
    Assign1();
    assert WithSlots(S1, [5, 2, 0, 3, 2, 1]) == S2.(ip := 1);
  }

  lemma Pass1()
    ensures Step(S1) == Next(S2)
  {
    StepPhysics(S1);
    Effect1();
    assert NextIpAsWritten(1, 1, 12) == 2;
  }

  lemma Assign2()
    ensures Assign([5, 2, 0, 3, 2, 1], [5, 2, 0, 3, 2, 0], [0, 1, 2, 3, 4, 5, 0]) == [0, 5, 2, 0, 3, 2]
  {
    AssignStep([5, 2, 0, 3, 2, 1], [5, 2, 0, 3, 2, 0], [0, 1, 2, 3, 4, 5, 0], [5, 5, 0, 3, 2, 1]);
    AssignStep([5, 5, 0, 3, 2, 1], [5, 2, 0, 3, 2, 0], [1, 2, 3, 4, 5, 0], [5, 5, 2, 3, 2, 1]);
    AssignStep([5, 5, 2, 3, 2, 1], [5, 2, 0, 3, 2, 0], [2, 3, 4, 5, 0], [5, 5, 2, 0, 2, 1]);
    AssignStep([5, 5, 2, 0, 2, 1], [5, 2, 0, 3, 2, 0], [3, 4, 5, 0], [5, 5, 2, 0, 3, 1]);
    AssignStep([5, 5, 2, 0, 3, 1], [5, 2, 0, 3, 2, 0], [4, 5, 0], [5, 5, 2, 0, 3, 2]);
    AssignStep([5, 5, 2, 0, 3, 2], [5, 2, 0, 3, 2, 0], [5, 0], [0, 5, 2, 0, 3, 2]);
  }

  lemma Effect2()
    ensures Bit(127, 5) == 1 && Physics(S2, Decode(127)) == S3.(ip := 2)
  {
    assert Slots(S2) == [5, 2, 0, 3, 2, 1];
    assert Sources(S2, 255) == [5, 2, 0, 3, 2, 0];
    Word127();
    Assign2();
    assert WithSlots(S2, [0, 5, 2, 0, 3, 2]) == S3.(ip := 2);
  }

  lemma Pass2()
    ensures Step(S2) == Next(S3)
  {
    StepPhysics(S2);
    Effect2();
    assert NextIpAsWritten(2, 1, 12) == 3;
  }

  lemma Effect3()
    ensures Combine(S3, ByteSub, ByteAdd, Decode(57)) == S4.(ip := 3)
  {
    Word57();
    assert Read(S3, 3) == 0 && Read(S3, 2) == 3;
    Sub0_3();
    MemSet(3, 3, 0, 0, 0, 5, 253);
    var t := Write(S3, 2, 253);
    assert Read(t, 2) == 3 && Read(t, 1) == 0;
    Add3_0();
    MemSet(3, 3, 0, 253, 0, 0, 3);
    CombineStores(S3, ByteSub, ByteAdd, Decode(57));
  }

  lemma Pass3()
    ensures Step(S3) == Next(S4)
  {
    StepMath(S3);
    Effect3();
    assert NextIpAsWritten(3, 1, 12) == 4;
  }

  lemma Assign4()
    ensures Assign([0, 5, 2, 0, 3, 2], [0, 5, 2, 0, 3, 244], [1, 4, 5, 1]) == [0, 244, 2, 0, 5, 3]
  {
    AssignStep([0, 5, 2, 0, 3, 2], [0, 5, 2, 0, 3, 244], [1, 4, 5, 1], [0, 5, 2, 0, 5, 2]);
    AssignStep([0, 5, 2, 0, 5, 2], [0, 5, 2, 0, 3, 244], [4, 5, 1], [0, 5, 2, 0, 5, 3]);
    AssignStep([0, 5, 2, 0, 5, 3], [0, 5, 2, 0, 3, 244], [5, 1], [0, 244, 2, 0, 5, 3]);
  }

  lemma Effect4()
    ensures Bit(114, 5) == 1 && Physics(S4, Decode(114)) == S5.(ip := 4)
  {
    assert Slots(S4) == [0, 5, 2, 0, 3, 2];
    assert Sources(S4, 242) == [0, 5, 2, 0, 3, 244];
    Word114();
    Assign4();
    assert WithSlots(S4, [0, 244, 2, 0, 5, 3]) == S5.(ip := 4);
  }

  lemma Pass4()
    ensures Step(S4) == Next(S5)
  {
    StepPhysics(S4);
    Effect4();
    assert NextIpAsWritten(4, 1, 12) == 5;
  }

  lemma Pass5()
    ensures Step(S5) == Next(S6)
  {
    StepScience(S5);
    assert Sext5(0) == 0 && Read(S5, 0) == 0;
    assert NextIpAsWritten(5, 1, 12) == 6;
  }

  lemma Effect6()
    ensures Combine(S6, ByteXor, ByteAnd, Decode(70)) == S7.(ip := 6)
  {
    Word70();
    assert Read(S6, 2) == 3 && Read(S6, 3) == 0;
    Xor3_0();
    MemSet(3, 3, 0, 253, 0, 0, 3);
    var t := Write(S6, 1, 3);
    assert Read(t, 1) == 253 && Read(t, 2) == 3;
    And253_3();
    MemSet(3, 3, 0, 253, 0, 244, 1);
    CombineStores(S6, ByteXor, ByteAnd, Decode(70));
  }

  lemma Pass6()
    ensures Step(S6) == Next(S7)
  {
    StepLogic(S6);
    Effect6();
    assert NextIpAsWritten(6, 1, 12) == 7;
  }

  lemma Assign7()
    ensures Assign([0, 244, 2, 0, 5, 3], [0, 244, 2, 0, 5, 2], [0, 1, 2, 3, 4, 5, 0]) == [2, 0, 244, 2, 0, 5]
  {
    AssignStep([0, 244, 2, 0, 5, 3], [0, 244, 2, 0, 5, 2], [0, 1, 2, 3, 4, 5, 0], [0, 0, 2, 0, 5, 3]);
    AssignStep([0, 0, 2, 0, 5, 3], [0, 244, 2, 0, 5, 2], [1, 2, 3, 4, 5, 0], [0, 0, 244, 0, 5, 3]);
    AssignStep([0, 0, 244, 0, 5, 3], [0, 244, 2, 0, 5, 2], [2, 3, 4, 5, 0], [0, 0, 244, 2, 5, 3]);
    AssignStep([0, 0, 244, 2, 5, 3], [0, 244, 2, 0, 5, 2], [3, 4, 5, 0], [0, 0, 244, 2, 0, 3]);
    AssignStep([0, 0, 244, 2, 0, 3], [0, 244, 2, 0, 5, 2], [4, 5, 0], [0, 0, 244, 2, 0, 5]);
    AssignStep([0, 0, 244, 2, 0, 5], [0, 244, 2, 0, 5, 2], [5, 0], [2, 0, 244, 2, 0, 5]);
  }

  lemma Effect7()
    ensures Bit(127, 5) == 1 && Physics(S7, Decode(127)) == S8.(ip := 7)
  {
    assert Slots(S7) == [0, 244, 2, 0, 5, 3];
    assert Sources(S7, 255) == [0, 244, 2, 0, 5, 2];
    Word127();
    Assign7();
    assert WithSlots(S7, [2, 0, 244, 2, 0, 5]) == S8.(ip := 7);
  }

  lemma Pass7()
    ensures Step(S7) == Next(S8)
  {
    StepPhysics(S7);
    Effect7();
    assert NextIpAsWritten(7, 1, 12) == 8;
  }

  lemma Assign8()
    ensures Assign([2, 0, 244, 2, 0, 5], [2, 0, 244, 2, 0, 1], [2, 3, 4, 5, 2]) == [2, 0, 1, 244, 2, 0]
  {
    AssignStep([2, 0, 244, 2, 0, 5], [2, 0, 244, 2, 0, 1], [2, 3, 4, 5, 2], [2, 0, 244, 244, 0, 5]);
    AssignStep([2, 0, 244, 244, 0, 5], [2, 0, 244, 2, 0, 1], [3, 4, 5, 2], [2, 0, 244, 244, 2, 5]);
    AssignStep([2, 0, 244, 244, 2, 5], [2, 0, 244, 2, 0, 1], [4, 5, 2], [2, 0, 244, 244, 2, 0]);
    AssignStep([2, 0, 244, 244, 2, 0], [2, 0, 244, 2, 0, 1], [5, 2], [2, 0, 1, 244, 2, 0]);
  }

  lemma Effect8()
    ensures Bit(124, 5) == 1 && Physics(S8, Decode(124)) == S9.(ip := 8)
  {
    assert Slots(S8) == [2, 0, 244, 2, 0, 5];
    assert Sources(S8, 252) == [2, 0, 244, 2, 0, 1];
    Word124();
    Assign8();
    assert WithSlots(S8, [2, 0, 1, 244, 2, 0]) == S9.(ip := 8);
  }

  lemma Pass8()
    ensures Step(S8) == Next(S9)
  {
    StepPhysics(S8);
    Effect8();
    assert NextIpAsWritten(8, 1, 12) == 9;
  }

  lemma Pass9()
    ensures Step(S9) == Next(S10)
  {
    StepScience(S9);
    assert Sext5(1) == 1 && Read(S9, 0) == 3;
    assert NextIpAsWritten(9, 1, 12) == 10;
  }

  lemma Effect10()
    ensures Combine(S10, ByteSub, ByteAdd, Decode(61)) == S11.(ip := 10)
  {
    Word61();
    assert Read(S10, 4) == 3 && Read(S10, 2) == 1;
    Sub3_1();
    MemSet(3, 3, 0, 253, 1, 0, 2);
    var t := Write(S10, 2, 2);
    assert Read(t, 3) == 3 && Read(t, 1) == 0;
    Add3_0();
    MemSet(2, 3, 0, 253, 1, 2, 3);
    CombineStores(S10, ByteSub, ByteAdd, Decode(61));
  }

  lemma Pass10()
    ensures Step(S10) == Next(S11)
  {
    StepMath(S10);
    Effect10();
    assert NextIpAsWritten(10, 1, 12) == 11;
  }

  lemma Pass11()
    ensures Step(S11) == Next(S12)
  {
    StepScience(S11);
    assert Sext5(30) == 254 && Read(S11, 0) == 2;
    assert NextIpAsWritten(11, 254, 12) == 9;
  }

  lemma Pass12()
    ensures Step(S12) == Next(S13)
  {
    StepScience(S12);
    assert Sext5(1) == 1 && Read(S12, 0) == 2;
    assert NextIpAsWritten(9, 1, 12) == 10;
  }

  lemma Effect13()
    ensures Combine(S13, ByteSub, ByteAdd, Decode(61)) == S14.(ip := 10)
  {
    Word61();
    assert Read(S13, 4) == 2 && Read(S13, 2) == 1;
    Sub2_1();
    MemSet(2, 3, 3, 253, 1, 0, 1);
    var t := Write(S13, 2, 1);
    assert Read(t, 3) == 3 && Read(t, 1) == 3;
    Add3_3();
    MemSet(1, 3, 3, 253, 1, 2, 6);
    CombineStores(S13, ByteSub, ByteAdd, Decode(61));
  }

  lemma Pass13()
    ensures Step(S13) == Next(S14)
  {
    StepMath(S13);
    Effect13();
    assert NextIpAsWritten(10, 1, 12) == 11;
  }

  lemma Pass14()
    ensures Step(S14) == Next(S15)
  {
    StepScience(S14);
    assert Sext5(30) == 254 && Read(S14, 0) == 1;
    assert NextIpAsWritten(11, 254, 12) == 9;
  }

  lemma Pass15()
    ensures Step(S15) == Next(S16)
  {
    StepScience(S15);
    assert Sext5(1) == 1 && Read(S15, 0) == 1;
    assert NextIpAsWritten(9, 1, 12) == 10;
  }

  lemma Effect16()
    ensures Combine(S16, ByteSub, ByteAdd, Decode(61)) == S17.(ip := 10)
  {
    Word61();
    assert Read(S16, 4) == 1 && Read(S16, 2) == 1;
    Sub1_1();
    MemSet(1, 3, 6, 253, 1, 0, 0);
    var t := Write(S16, 2, 0);
    assert Read(t, 3) == 3 && Read(t, 1) == 6;
    Add3_6();
    MemSet(0, 3, 6, 253, 1, 2, 9);
    CombineStores(S16, ByteSub, ByteAdd, Decode(61));
  }

  lemma Pass16()
    ensures Step(S16) == Next(S17)
  {
    StepMath(S16);
    Effect16();
    assert NextIpAsWritten(10, 1, 12) == 11;
  }

  lemma Pass17()
    ensures Step(S17) == Next(S18)
  {
    StepScience(S17);
    assert Sext5(30) == 254 && Read(S17, 0) == 0;
    assert NextIpAsWritten(11, 1, 12) == 0;
  }

  lemma Assign18()
    ensures Assign([2, 0, 1, 244, 2, 0], [2, 0, 1, 244, 2, 2], [1, 5, 1]) == [2, 2, 1, 244, 2, 0]
  {
    AssignStep([2, 0, 1, 244, 2, 0], [2, 0, 1, 244, 2, 2], [1, 5, 1], [2, 0, 1, 244, 2, 0]);
    AssignStep([2, 0, 1, 244, 2, 0], [2, 0, 1, 244, 2, 2], [5, 1], [2, 2, 1, 244, 2, 0]);
  }

  lemma Effect18()
    ensures Bit(98, 5) == 1 && Physics(S18, Decode(98)) == S19.(ip := 0)
  {
    assert Slots(S18) == [2, 0, 1, 244, 2, 0];
    assert Sources(S18, 2) == [2, 0, 1, 244, 2, 2];
    Word98();
    Assign18();
    assert WithSlots(S18, [2, 2, 1, 244, 2, 0]) == S19.(ip := 0);
  }

  lemma Pass18()
    ensures Step(S18) == Next(S19)
  {
    StepPhysics(S18);
    Effect18();
    assert NextIpAsWritten(0, 1, 12) == 1;
  }

  lemma Assign19()
    ensures Assign([2, 2, 1, 244, 2, 0], [2, 2, 1, 244, 2, 252], [2, 3, 4, 5, 2]) == [2, 2, 252, 1, 244, 2]
  {
    AssignStep([2, 2, 1, 244, 2, 0], [2, 2, 1, 244, 2, 252], [2, 3, 4, 5, 2], [2, 2, 1, 1, 2, 0]);
    AssignStep([2, 2, 1, 1, 2, 0], [2, 2, 1, 244, 2, 252], [3, 4, 5, 2], [2, 2, 1, 1, 244, 0]);
    AssignStep([2, 2, 1, 1, 244, 0], [2, 2, 1, 244, 2, 252], [4, 5, 2], [2, 2, 1, 1, 244, 2]);
    AssignStep([2, 2, 1, 1, 244, 2], [2, 2, 1, 244, 2, 252], [5, 2], [2, 2, 252, 1, 244, 2]);
  }

  lemma Effect19()
    ensures Bit(124, 5) == 1 && Physics(S19, Decode(124)) == S20.(ip := 1)
  {
    assert Slots(S19) == [2, 2, 1, 244, 2, 0];
    assert Sources(S19, 252) == [2, 2, 1, 244, 2, 252];
    Word124();
    Assign19();
    assert WithSlots(S19, [2, 2, 252, 1, 244, 2]) == S20.(ip := 1);
  }

  lemma Pass19()
    ensures Step(S19) == Next(S20)
  {
    StepPhysics(S19);
    Effect19();
    assert NextIpAsWritten(1, 1, 12) == 2;
  }

  lemma Assign20()
    ensures Assign([2, 2, 252, 1, 244, 2], [2, 2, 252, 1, 244, 1], [0, 1, 2, 3, 4, 5, 0]) == [1, 2, 2, 252, 1, 244]
  {
    AssignStep([2, 2, 252, 1, 244, 2], [2, 2, 252, 1, 244, 1], [0, 1, 2, 3, 4, 5, 0], [2, 2, 252, 1, 244, 2]);
    AssignStep([2, 2, 252, 1, 244, 2], [2, 2, 252, 1, 244, 1], [1, 2, 3, 4, 5, 0], [2, 2, 2, 1, 244, 2]);
    AssignStep([2, 2, 2, 1, 244, 2], [2, 2, 252, 1, 244, 1], [2, 3, 4, 5, 0], [2, 2, 2, 252, 244, 2]);
    AssignStep([2, 2, 2, 252, 244, 2], [2, 2, 252, 1, 244, 1], [3, 4, 5, 0], [2, 2, 2, 252, 1, 2]);
    AssignStep([2, 2, 2, 252, 1, 2], [2, 2, 252, 1, 244, 1], [4, 5, 0], [2, 2, 2, 252, 1, 244]);
    AssignStep([2, 2, 2, 252, 1, 244], [2, 2, 252, 1, 244, 1], [5, 0], [1, 2, 2, 252, 1, 244]);
  }

  lemma Effect20()
    ensures Bit(127, 5) == 1 && Physics(S20, Decode(127)) == S21.(ip := 2)
  {
    assert Slots(S20) == [2, 2, 252, 1, 244, 2];
    assert Sources(S20, 255) == [2, 2, 252, 1, 244, 1];
    Word127();
    Assign20();
    assert WithSlots(S20, [1, 2, 2, 252, 1, 244]) == S21.(ip := 2);
  }

  lemma Pass20()
    ensures Step(S20) == Next(S21)
  {
    StepPhysics(S20);
    Effect20();
    assert NextIpAsWritten(2, 1, 12) == 3;
  }

  lemma Effect21()
    ensures Combine(S21, ByteSub, ByteAdd, Decode(57)) == S22.(ip := 3)
  {
    Word57();
    assert Read(S21, 3) == 9 && Read(S21, 2) == 0;
    Sub9_0();
    MemSet(0, 3, 9, 253, 1, 2, 9);
    var t := Write(S21, 2, 9);
    assert Read(t, 2) == 0 && Read(t, 1) == 3;
    Add0_3();
    MemSet(0, 3, 9, 253, 1, 1, 3);
    CombineStores(S21, ByteSub, ByteAdd, Decode(57));
  }

  lemma Pass21()
    ensures Step(S21) == Next(S22)
  {
    StepMath(S21);
    Effect21();
    assert NextIpAsWritten(3, 1, 12) == 4;
  }

  lemma Assign22()
    ensures Assign([1, 2, 2, 252, 1, 244], [1, 2, 2, 252, 1, 230], [1, 4, 5, 1]) == [1, 230, 2, 252, 2, 1]
  {
    AssignStep([1, 2, 2, 252, 1, 244], [1, 2, 2, 252, 1, 230], [1, 4, 5, 1], [1, 2, 2, 252, 2, 244]);
    AssignStep([1, 2, 2, 252, 2, 244], [1, 2, 2, 252, 1, 230], [4, 5, 1], [1, 2, 2, 252, 2, 1]);
    AssignStep([1, 2, 2, 252, 2, 1], [1, 2, 2, 252, 1, 230], [5, 1], [1, 230, 2, 252, 2, 1]);
  }

  lemma Effect22()
    ensures Bit(114, 5) == 1 && Physics(S22, Decode(114)) == S23.(ip := 4)
  {
    assert Slots(S22) == [1, 2, 2, 252, 1, 244];
    assert Sources(S22, 242) == [1, 2, 2, 252, 1, 230];
    Word114();
    Assign22();
    assert WithSlots(S22, [1, 230, 2, 252, 2, 1]) == S23.(ip := 4);
  }

  lemma Pass22()
    ensures Step(S22) == Next(S23)
  {
    StepPhysics(S22);
    Effect22();
    assert NextIpAsWritten(4, 1, 12) == 5;
  }

  lemma Pass23()
    ensures Step(S23) == Stop(S23.(speed := 0))
  {
    StepScience(S23);
    assert Sext5(0) == 0 && Read(S23, 0) == 3;
  }

  lemma Passes0To4()
    ensures Run(S0, 24) == Run(S4, 20)
  {
    Pass0();
    RunNext(S0, 24, S1);
    Pass1();
    RunNext(S1, 23, S2);
    Pass2();
    RunNext(S2, 22, S3);
    Pass3();
    RunNext(S3, 21, S4);
  }

  lemma Passes4To8()
    ensures Run(S4, 20) == Run(S8, 16)
  {
    Pass4();
    RunNext(S4, 20, S5);
    Pass5();
    RunNext(S5, 19, S6);
    Pass6();
    RunNext(S6, 18, S7);
    Pass7();
    RunNext(S7, 17, S8);
  }

  lemma Passes8To12()
    ensures Run(S8, 16) == Run(S12, 12)
  {
    Pass8();
    RunNext(S8, 16, S9);
    Pass9();
    RunNext(S9, 15, S10);
    Pass10();
    RunNext(S10, 14, S11);
    Pass11();
    RunNext(S11, 13, S12);
  }

  lemma Passes12To16()
    ensures Run(S12, 12) == Run(S16, 8)
  {
    Pass12();
    RunNext(S12, 12, S13);
    Pass13();
    RunNext(S13, 11, S14);
    Pass14();
    RunNext(S14, 10, S15);
    Pass15();
    RunNext(S15, 9, S16);
  }

  lemma Passes16To20()
    ensures Run(S16, 8) == Run(S20, 4)
  {
    Pass16();
    RunNext(S16, 8, S17);
    Pass17();
    RunNext(S17, 7, S18);
    Pass18();
    RunNext(S18, 6, S19);
    Pass19();
    RunNext(S19, 5, S20);
  }

  lemma Passes20To23()
    ensures Run(S20, 4) == Run(S23, 1)
  {
    Pass20();
    RunNext(S20, 4, S21);
    Pass21();
    RunNext(S21, 3, S22);
    Pass22();
    RunNext(S22, 2, S23);
  }

  /** ip plus the signed speed is never negative before a pass, so every
      pass of the test takes the circular step `NextIp` as well. */
  lemma NeverBelowZero()
    ensures S0.ip + Signed(S0.speed) >= 0 && S0.ip + 256 < USIZE
    ensures S1.ip + Signed(S1.speed) >= 0 && S1.ip + 256 < USIZE
    ensures S2.ip + Signed(S2.speed) >= 0 && S2.ip + 256 < USIZE
    ensures S3.ip + Signed(S3.speed) >= 0 && S3.ip + 256 < USIZE
    ensures S4.ip + Signed(S4.speed) >= 0 && S4.ip + 256 < USIZE
    ensures S5.ip + Signed(S5.speed) >= 0 && S5.ip + 256 < USIZE
    ensures S6.ip + Signed(S6.speed) >= 0 && S6.ip + 256 < USIZE
    ensures S7.ip + Signed(S7.speed) >= 0 && S7.ip + 256 < USIZE
    ensures S8.ip + Signed(S8.speed) >= 0 && S8.ip + 256 < USIZE
    ensures S9.ip + Signed(S9.speed) >= 0 && S9.ip + 256 < USIZE
    ensures S10.ip + Signed(S10.speed) >= 0 && S10.ip + 256 < USIZE
    ensures S11.ip + Signed(S11.speed) >= 0 && S11.ip + 256 < USIZE
    ensures S12.ip + Signed(S12.speed) >= 0 && S12.ip + 256 < USIZE
    ensures S13.ip + Signed(S13.speed) >= 0 && S13.ip + 256 < USIZE
    ensures S14.ip + Signed(S14.speed) >= 0 && S14.ip + 256 < USIZE
    ensures S15.ip + Signed(S15.speed) >= 0 && S15.ip + 256 < USIZE
    ensures S16.ip + Signed(S16.speed) >= 0 && S16.ip + 256 < USIZE
    ensures S17.ip + Signed(S17.speed) >= 0 && S17.ip + 256 < USIZE
    ensures S18.ip + Signed(S18.speed) >= 0 && S18.ip + 256 < USIZE
    ensures S19.ip + Signed(S19.speed) >= 0 && S19.ip + 256 < USIZE
    ensures S20.ip + Signed(S20.speed) >= 0 && S20.ip + 256 < USIZE
    ensures S21.ip + Signed(S21.speed) >= 0 && S21.ip + 256 < USIZE
    ensures S22.ip + Signed(S22.speed) >= 0 && S22.ip + 256 < USIZE
    ensures S23.ip + Signed(S23.speed) >= 0 && S23.ip + 256 < USIZE
  {
  }

  lemma FinalProduct()
    ensures S23.mem[2] == 9
  {
  }

  lemma AllPasses()
    ensures Run(S0, 24) == Run(S23, 1)
  {
    Passes0To4();
    Passes4To8();
    Passes8To12();
    Passes12To16();
    Passes16To20();
    Passes20To23();
  }

  /** The product of the two inputs is in byte 2 after 24 passes of the
      loop, the last of which returns from SCIENCE. */
  lemma MultiplyTest()
    ensures Run(Initial(), 24).Halted?
    ensures Run(Initial(), 24).m.mem[2] == 9
  {
    AllPasses();
    assert Run(S23, 1) == Halted(S23.(speed := 0)) by { Pass23(); }
    FinalProduct();
    InitialMemory();
    assert Initial() == S0;
  }
}
