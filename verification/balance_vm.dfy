/** The Balance machine of src/bin/balance-vm.rs: an 8-bit machine with
    four source registers `sr`, two destination registers `dr`, 256 bytes
    of memory addressed through those registers, an instruction pointer
    `ip` and an instruction speed `is` (here `speed`) that is added to `ip`
    after every instruction. Bytes are integers in 0..255 and every byte
    operation wraps explicitly, as in a release build.
 */
module Balance {
  import opened Words
  import opened Numerals

  type Byte = u8

  /** `BalanceVM`; the fixed-size arrays become sequences whose lengths
      `Shaped` records. `ip` is a `usize` and the code a `Vec`, so both
      stay below 2^64. */
  datatype Machine = Machine(ip: nat, speed: Byte, sr: seq<Byte>, dr: seq<Byte>, mem: seq<Byte>, code: seq<Byte>)

  predicate Shaped(m: Machine) {
    && |m.sr| == 4 && |m.dr| == 2 && |m.mem| == 256
    && m.ip < USIZE && |m.code| < USIZE
  }

  /** The value of a byte read as a two's-complement `i8`. */
  function Signed(b: Byte): (v: int)
    ensures -128 <= v < 128
    ensures v % 256 == b
  {
    if b < 128 then b else b - 256
  }

  /** `sext5`: keep the low five bits, flip bit 4, subtract 16 with
      wrap-around. */
  function Sext5(w: Byte): Byte {
    var low := w % 32;
    var flipped := if low >= 16 then low - 16 else low + 16;
    (flipped - 16) % 256
  }

  /** Only the low five bits matter, and the result is their five-bit
      two's-complement value. */
  lemma Sext5Value(w: Byte)
    ensures Sext5(w) == Sext5(w % 32)
    ensures Signed(Sext5(w)) == if w % 32 < 16 then w % 32 else w % 32 - 32
    ensures -16 <= Signed(Sext5(w)) < 16
  {
  }

  /** The fields `fetch_inst` returns. */
  datatype Inst = Inst(w: Byte, imm: Byte, d: nat, s1: nat, s2: nat)

  /** `w >> 5` */
  function Opcode(w: Byte): (op: nat)
    ensures op < 8
  {
    w / 32
  }

  /** `fetch_inst` once the byte at `ip` is known. */
  function Decode(w: Byte): (i: Inst)
    ensures i.w == w && i.imm == Sext5(w)
    ensures i.d < 2 && i.s1 < 4 && i.s2 < 4
  {
    Inst(w, Sext5(w), w / 16 % 2, w / 4 % 4, w % 4)
  }

  /** The fields cover the instruction byte: nothing is lost by decoding. */
  lemma DecodeCovers(w: Byte)
    ensures var i := Decode(w); Opcode(w) * 32 + i.d * 16 + i.s1 * 4 + i.s2 == w
  {
    assert w == (w / 16) * 16 + w % 16;
    assert w % 16 == (w / 4 % 4) * 4 + w % 4;
    assert w / 16 == (w / 32) * 2 + w / 16 % 2;
  }

  /** `rmem`: the byte at the address held in source register `x mod 4`. */
  function Read(m: Machine, x: nat): Byte
    requires Shaped(m)
  {
    m.mem[m.sr[x % 4]]
  }

  /** `wmem`: store at the address held in destination register `x mod 2`. */
  function Write(m: Machine, x: nat, v: Byte): (r: Machine)
    requires Shaped(m)
    ensures Shaped(r) && r.ip == m.ip && r.speed == m.speed && r.sr == m.sr && r.dr == m.dr && r.code == m.code
    ensures r.mem[m.dr[x % 2]] == v
  {
    m.(mem := m.mem[m.dr[x % 2] := v])
  }

  /** A read after a write sees the written byte exactly when the two
      registers hold the same address. */
  lemma ReadAfterWrite(m: Machine, x: nat, v: Byte, y: nat)
    requires Shaped(m)
    ensures Read(Write(m, x, v), y) == if m.dr[x % 2] == m.sr[y % 4] then v else Read(m, y)
  {
  }

  lemma Pow2Of8()
    ensures Pow2(8) == 256
  {
  }

  /** The byte operators of the MATH arm (`-`, `+`) and of the LOGIC arm
      (`^`, `&`), each wrapping to a byte. */
  function ByteSub(x: Byte, y: Byte): Byte { (x - y) % 256 }

  function ByteAdd(x: Byte, y: Byte): Byte { (x + y) % 256 }

  function ByteXor(x: Byte, y: Byte): Byte {
    Pow2Of8();
    Bitwise(XorGate, x, y, 8)
  }

  function ByteAnd(x: Byte, y: Byte): Byte {
    Pow2Of8();
    Bitwise(AndGate, x, y, 8)
  }

  /** The MATH and LOGIC arms, which differ only in their operators: first
      `dr[d+1]` gets `f` of `sr[s1+1]` and `sr[s2+1]`, then `dr[d]` gets `g`
      of `sr[s1]` and `sr[s2]`, read after the first store. MATH is
      `Combine(m, ByteSub, ByteAdd, i)`, LOGIC `Combine(m, ByteXor, ByteAnd, i)`. */
  function Combine(m: Machine, f: (Byte, Byte) -> Byte, g: (Byte, Byte) -> Byte, i: Inst): (r: Machine)
    requires Shaped(m)
    ensures Shaped(r) && r.ip == m.ip && r.speed == m.speed && r.sr == m.sr && r.dr == m.dr && r.code == m.code
  {
    var t := Write(m, i.d + 1, f(Read(m, i.s1 + 1), Read(m, i.s2 + 1)));
    Write(t, i.d, g(Read(t, i.s1), Read(t, i.s2)))
  }

  /** The two stores of `Combine`, at the memory level. */
  lemma CombineStores(m: Machine, f: (Byte, Byte) -> Byte, g: (Byte, Byte) -> Byte, i: Inst)
    requires Shaped(m) && i.d < 2
    ensures var v := f(Read(m, i.s1 + 1), Read(m, i.s2 + 1));
      var t := Write(m, i.d + 1, v);
      Combine(m, f, g, i).mem == m.mem[m.dr[(i.d + 1) % 2] := v][m.dr[i.d] := g(Read(t, i.s1), Read(t, i.s2))]
  {
    assert i.d % 2 == i.d;
  }

  /** When the two destination registers differ, the first result lands
      at `dr[d+1]`; when moreover the first store does not land on a source
      of the second, the second result is computed from the old memory;
      no other byte changes. */
  lemma CombineEffect(m: Machine, f: (Byte, Byte) -> Byte, g: (Byte, Byte) -> Byte, i: Inst)
    requires Shaped(m) && i.d < 2 && i.s1 < 4 && i.s2 < 4
    requires m.dr[0] != m.dr[1]
    ensures var r := Combine(m, f, g, i);
      var lo, hi := m.dr[(i.d + 1) % 2], m.dr[i.d];
      && r.mem[lo] == f(Read(m, i.s1 + 1), Read(m, i.s2 + 1))
      && (m.sr[i.s1] != lo && m.sr[i.s2] != lo ==> r.mem[hi] == g(Read(m, i.s1), Read(m, i.s2)))
      && forall a :: 0 <= a < 256 && a != lo && a != hi ==> r.mem[a] == m.mem[a]
  {
    var v := f(Read(m, i.s1 + 1), Read(m, i.s2 + 1));
    var t := Write(m, i.d + 1, v);
    var u := g(Read(t, i.s1), Read(t, i.s2));
    CombineStores(m, f, g, i);
    assert i.s1 % 4 == i.s1 && i.s2 % 4 == i.s2;
    ReadAfterWrite(m, i.d + 1, v, i.s1);
    ReadAfterWrite(m, i.d + 1, v, i.s2);
    StoresFrame(m.mem, m.dr[(i.d + 1) % 2], v, m.dr[i.d], u);
  }

  lemma StoresFrame(mem: seq<Byte>, p: nat, v: Byte, q: nat, u: Byte)
    requires p < |mem| && q < |mem|
    ensures forall a :: 0 <= a < |mem| && a != p && a != q ==> mem[p := v][q := u][a] == mem[a]
  {
  }

  /** When both destination registers hold the same address, the second
      store wins: that byte holds the second result and nothing else changes. */
  lemma CombineSameDestination(m: Machine, f: (Byte, Byte) -> Byte, g: (Byte, Byte) -> Byte, i: Inst)
    requires Shaped(m) && i.d < 2 && m.dr[0] == m.dr[1]
    ensures var r := Combine(m, f, g, i);
      var t := Write(m, i.d + 1, f(Read(m, i.s1 + 1), Read(m, i.s2 + 1)));
      && r.mem[m.dr[0]] == g(Read(t, i.s1), Read(t, i.s2))
      && forall a :: 0 <= a < 256 && a != m.dr[0] ==> r.mem[a] == m.mem[a]
  {
    var v := f(Read(m, i.s1 + 1), Read(m, i.s2 + 1));
    var t := Write(m, i.d + 1, v);
    var u := g(Read(t, i.s1), Read(t, i.s2));
    CombineStores(m, f, g, i);
    assert m.dr[(i.d + 1) % 2] == m.dr[0] && m.dr[i.d] == m.dr[0];
    StoresFrame(m.mem, m.dr[0], v, m.dr[0], u);
  }

  // --------------------------------------------------------------- PHYSICS

  /** The six registers PHYSICS permutes, in the order of bits 0..5 of the
      instruction: `dr[1], dr[0], sr[3], sr[2], sr[1], sr[0]`. */
  function Slots(m: Machine): (sl: seq<Byte>)
    requires Shaped(m)
    ensures |sl| == 6
  {
    [m.dr[1], m.dr[0], m.sr[3], m.sr[2], m.sr[1], m.sr[0]]
  }

  /** The registers rebuilt from six slot values. */
  function WithSlots(m: Machine, sl: seq<Byte>): (r: Machine)
    requires Shaped(m) && |sl| == 6
    ensures Shaped(r) && Slots(r) == sl
    ensures r.(sr := m.sr, dr := m.dr) == m
  {
    m.(dr := [sl[1], sl[0]], sr := [sl[5], sl[4], sl[3], sl[2]])
  }

  /** The values copied around the cycle: the old slots, except that
      `sr[0]` contributes `sr[0] + imm`. */
  function Sources(m: Machine, imm: Byte): (l: seq<Byte>)
    requires Shaped(m)
    ensures |l| == 6
  {
    Slots(m)[5 := (m.sr[0] + imm) % 256]
  }

  /** The slot numbers from `from` up to 5 whose bit is set in w, ascending. */
  function Selected(w: Byte, from: nat): (sel: seq<nat>)
    requires from <= 6
    ensures forall k :: 0 <= k < |sel| ==> from <= sel[k] < 6
    decreases 6 - from
  {
    if from == 6 then []
    else (if Bit(w, from) == 1 then [from] else []) + Selected(w, from + 1)
  }

  /** Exactly the slots whose bit is set are selected, in ascending order. */
  lemma SelectedSpec(w: Byte, from: nat)
    requires from <= 6
    ensures var sel := Selected(w, from);
      && (forall j :: j in sel ==> Bit(w, j) == 1)
      && (forall j :: from <= j < 6 && Bit(w, j) == 1 ==> j in sel)
      && Ascending(sel)
  {
    SelectedOnlySet(w, from);
    SelectedAllSet(w, from);
    SelectedAscending(w, from);
  }

  lemma {:induction false} SelectedOnlySet(w: Byte, from: nat)
    requires from <= 6
    ensures forall j :: j in Selected(w, from) ==> Bit(w, j) == 1
    decreases 6 - from
  {
    if from < 6 {
      SelectedOnlySet(w, from + 1);
      var rest := Selected(w, from + 1);
      var head: seq<nat> := if Bit(w, from) == 1 then [from] else [];
      assert Selected(w, from) == head + rest;
    }
  }

  lemma {:induction false} SelectedAllSet(w: Byte, from: nat)
    requires from <= 6
    ensures forall j :: from <= j < 6 && Bit(w, j) == 1 ==> j in Selected(w, from)
    decreases 6 - from
  {
    if from < 6 {
      SelectedAllSet(w, from + 1);
      var rest := Selected(w, from + 1);
      var sel := Selected(w, from);
      var head: seq<nat> := if Bit(w, from) == 1 then [from] else [];
      assert sel == head + rest;
      forall j | from <= j < 6 && Bit(w, j) == 1
        ensures j in sel
      {
        if j == from {
          assert sel[0] == j;
        } else {
          assert j in rest;
        }
      }
    }
  }

  /** Strictly increasing. */
  predicate Ascending(s: seq<nat>) {
    forall a, b :: 0 <= a < b < |s| ==> s[a] < s[b]
  }

  lemma AscendingCons(x: nat, rest: seq<nat>)
    requires Ascending(rest) && forall k :: 0 <= k < |rest| ==> x < rest[k]
    ensures Ascending([x] + rest)
  {
    var s := [x] + rest;
    forall a, b | 0 <= a < b < |s|
      ensures s[a] < s[b]
    {
      assert s[b] == rest[b - 1];
      if a > 0 {
        assert s[a] == rest[a - 1];
      }
    }
  }

  lemma {:induction false} SelectedAscending(w: Byte, from: nat)
    requires from <= 6
    ensures Ascending(Selected(w, from))
    decreases 6 - from
  {
    if from < 6 {
      SelectedAscending(w, from + 1);
      var rest := Selected(w, from + 1);
      var head: seq<nat> := if Bit(w, from) == 1 then [from] else [];
      assert Selected(w, from) == head + rest;
      if Bit(w, from) == 1 {
        AscendingCons(from, rest);
      }
    }
  }

  /** `match j { ... }` in the loop over consecutive pairs `(i, j)` of the
      cycle: slot `j` receives source `i`, pair by pair. */
  function Assign(slots: seq<Byte>, l: seq<Byte>, cd: seq<nat>): (r: seq<Byte>)
    requires |l| == |slots| && forall k :: 0 <= k < |cd| ==> cd[k] < |slots|
    ensures |r| == |slots|
    decreases |cd|
  {
    if |cd| < 2 then slots
    else Assign(slots[cd[1] := l[cd[0]]], l, cd[1..])
  }

  /** No slot is named twice after position 0. */
  predicate DistinctAfterFirst(cd: seq<nat>) {
    forall a, b :: 1 <= a < b < |cd| ==> cd[a] != cd[b]
  }

  /** Each slot named after position 0 holds the source named just before it. */
  predicate Moved(r: seq<Byte>, l: seq<Byte>, cd: seq<nat>)
    requires forall k :: 0 <= k < |cd| ==> cd[k] < |r| && cd[k] < |l|
  {
    forall k :: 1 <= k < |cd| ==> r[cd[k]] == l[cd[k - 1]]
  }

  /** Every slot not named after position 0 is as it was. */
  predicate Kept(r: seq<Byte>, slots: seq<Byte>, cd: seq<nat>)
    requires |r| == |slots| && |cd| >= 1
  {
    forall j :: 0 <= j < |slots| && j !in cd[1..] ==> r[j] == slots[j]
  }

  lemma DistinctAfterFirstTail(cd: seq<nat>)
    requires |cd| >= 2 && DistinctAfterFirst(cd)
    ensures DistinctAfterFirst(cd[1..]) && cd[1] !in cd[2..]
  {
    forall b | 0 <= b < |cd[2..]|
      ensures cd[2..][b] != cd[1]
    {
      assert cd[2..][b] == cd[b + 2];
    }
  }

  /** After the pairs are processed, each slot named after position 0
      holds the source named just before it, and every other slot is
      unchanged, provided no slot is named twice after position 0. */
  lemma {:induction false} AssignEffect(slots: seq<Byte>, l: seq<Byte>, cd: seq<nat>)
    requires |l| == |slots| && |cd| >= 1 && forall k :: 0 <= k < |cd| ==> cd[k] < |slots|
    requires DistinctAfterFirst(cd)
    ensures Moved(Assign(slots, l, cd), l, cd) && Kept(Assign(slots, l, cd), slots, cd)
    decreases |cd|
  {
    if |cd| >= 2 {
      var s' := slots[cd[1] := l[cd[0]]];
      DistinctAfterFirstTail(cd);
      assert cd[1..][1..] == cd[2..];
      AssignEffect(s', l, cd[1..]);
      var r := Assign(slots, l, cd);
      assert r == Assign(s', l, cd[1..]);
      forall k | 1 <= k < |cd|
        ensures r[cd[k]] == l[cd[k - 1]]
      {
        if k > 1 {
          assert cd[k] == cd[1..][k - 1] && cd[k - 1] == cd[1..][k - 2];
        }
      }
      forall j | 0 <= j < |slots| && j !in cd[1..]
        ensures r[j] == slots[j]
      {
        assert j !in cd[1..][1..];
      }
    }
  }

  /** `cd`: the selected slots followed by the first of them again. */
  function Cycle(w: Byte): (cd: seq<nat>)
    requires Bit(w, 5) == 1
    ensures |cd| >= 2 && cd[|cd| - 1] == cd[0] && cd[..|cd| - 1] == Selected(w, 0)
    ensures forall k :: 0 <= k < |cd| ==> cd[k] < 6
  {
    var sel := Selected(w, 0);
    CycleShape(w);
    sel + [sel[0]]
  }

  lemma CycleShape(w: Byte)
    requires Bit(w, 5) == 1
    ensures var sel := Selected(w, 0);
      && |sel| >= 1
      && var cd := sel + [sel[0]];
      && cd[..|cd| - 1] == sel
      && forall k :: 0 <= k < |cd| ==> cd[k] < 6
  {
    var sel := Selected(w, 0);
    LastSelected(w, 0);
    var cd := sel + [sel[0]];
    assert cd[..|cd| - 1] == sel;
    forall k | 0 <= k < |cd|
      ensures cd[k] < 6
    {
      if k < |sel| {
        assert cd[k] == sel[k];
      } else {
        assert cd[k] == sel[0];
      }
    }
  }

  /** The PHYSICS arm for an instruction whose bit 5 is set. */
  function Physics(m: Machine, i: Inst): (r: Machine)
    requires Shaped(m) && Bit(i.w, 5) == 1
    ensures Shaped(r) && r.(sr := m.sr, dr := m.dr) == m
  {
    WithSlots(m, Assign(Slots(m), Sources(m, i.imm), Cycle(i.w)))
  }

  /** Bit 5 is set in every PHYSICS instruction. */
  lemma PhysicsHasBit5(w: Byte)
    requires Opcode(w) == 3
    ensures Bit(w, 5) == 1
  {
    var w1, w2, w3, w4 := w / 2, w / 4, w / 8, w / 16;
    assert w1 / 2 == w2 && w2 / 2 == w3 && w3 / 2 == w4 && w4 / 2 == w / 32;
    assert Bit(w, 5) == Bit(w1, 4) == Bit(w2, 3) == Bit(w3, 2) == Bit(w4, 1) == Bit(w / 32, 0);
  }

  /** The last selected slot is 5 whenever bit 5 is set. */
  lemma {:induction false} LastSelected(w: Byte, from: nat)
    requires Bit(w, 5) == 1 && from <= 5
    ensures var sel := Selected(w, from); |sel| >= 1 && sel[|sel| - 1] == 5
    decreases 5 - from
  {
    if from < 5 {
      LastSelected(w, from + 1);
      var head: seq<nat> := if Bit(w, from) == 1 then [from] else [];
      assert Selected(w, from) == head + Selected(w, from + 1);
      LastOfAppend(head, Selected(w, from + 1));
    } else {
      assert Selected(w, 6) == [];
      assert Selected(w, 5) == [5] + Selected(w, 6);
    }
  }

  lemma LastOfAppend(head: seq<nat>, rest: seq<nat>)
    requires |rest| >= 1
    ensures |head + rest| >= 1 && (head + rest)[|head + rest| - 1] == rest[|rest| - 1]
  {
  }

  /** Processing the pairs of an ascending list of slots closed into a
      cycle moves each source one place along the cycle. */
  lemma RotateSelected(slots: seq<Byte>, l: seq<Byte>, sel: seq<nat>)
    requires |slots| == 6 && |l| == 6 && |sel| >= 1
    requires forall k :: 0 <= k < |sel| ==> sel[k] < 6
    requires Ascending(sel)
    ensures var after := Assign(slots, l, sel + [sel[0]]);
      && (forall k :: 1 <= k < |sel| ==> after[sel[k]] == l[sel[k - 1]])
      && after[sel[0]] == l[sel[|sel| - 1]]
      && (forall j :: 0 <= j < 6 && j !in sel ==> after[j] == slots[j])
  {
    var cd := sel + [sel[0]];
    CycleDistinct(sel);
    AssignEffect(slots, l, cd);
    var after := Assign(slots, l, cd);
    CycleMoved(after, l, sel);
    CycleKept(after, slots, sel);
  }

  /** Closing an ascending list into a cycle names no slot twice after
      position 0. */
  lemma CycleDistinct(sel: seq<nat>)
    requires |sel| >= 1 && Ascending(sel)
    ensures DistinctAfterFirst(sel + [sel[0]])
  {
    var cd := sel + [sel[0]];
    forall a, b | 1 <= a < b < |cd|
      ensures cd[a] != cd[b]
    {
      if b == |sel| {
        assert cd[b] == sel[0] && cd[a] == sel[a];
      } else {
        assert cd[a] == sel[a] && cd[b] == sel[b];
      }
    }
  }

  lemma CycleMoved(after: seq<Byte>, l: seq<Byte>, sel: seq<nat>)
    requires |after| == 6 && |l| == 6 && |sel| >= 1
    requires forall k :: 0 <= k < |sel| ==> sel[k] < 6
    requires Moved(after, l, sel + [sel[0]])
    ensures forall k :: 1 <= k < |sel| ==> after[sel[k]] == l[sel[k - 1]]
    ensures after[sel[0]] == l[sel[|sel| - 1]]
  {
    var cd := sel + [sel[0]];
    forall k | 1 <= k < |sel|
      ensures after[sel[k]] == l[sel[k - 1]]
    {
      assert cd[k] == sel[k] && cd[k - 1] == sel[k - 1];
    }
    assert cd[|sel|] == sel[0] && cd[|sel| - 1] == sel[|sel| - 1];
  }

  lemma CycleKept(after: seq<Byte>, slots: seq<Byte>, sel: seq<nat>)
    requires |after| == 6 && |slots| == 6 && |sel| >= 1
    requires Kept(after, slots, sel + [sel[0]])
    ensures forall j :: 0 <= j < 6 && j !in sel ==> after[j] == slots[j]
  {
    var cd := sel + [sel[0]];
    forall j | 0 <= j < 6 && j !in sel
      ensures after[j] == slots[j]
    {
      assert j !in cd[1..] by {
        forall b | 0 <= b < |cd[1..]|
          ensures cd[1..][b] != j
        {
          assert cd[1..][b] == cd[b + 1];
          if b + 1 < |sel| {
            assert cd[b + 1] == sel[b + 1];
          }
        }
      }
    }
  }

  lemma PhysicsSlots(m: Machine, i: Inst)
    requires Shaped(m) && Bit(i.w, 5) == 1
    ensures var sel := Selected(i.w, 0);
      |sel| >= 1 && Slots(Physics(m, i)) == Assign(Slots(m), Sources(m, i.imm), sel + [sel[0]])
  {
    var sel := Selected(i.w, 0);
    LastSelected(i.w, 0);
    assert Cycle(i.w) == sel + [sel[0]];
  }

  /** PHYSICS rotates the selected slots: each selected slot takes the
      source of the selected slot before it, and the first selected slot
      takes the source of the last one, which is always `sr[0]` (slot 5),
      so it receives `sr[0] + imm`. */
  lemma PhysicsRotation(m: Machine, i: Inst)
    requires Shaped(m) && Bit(i.w, 5) == 1
    ensures var sel, l, after := Selected(i.w, 0), Sources(m, i.imm), Slots(Physics(m, i));
      && |sel| >= 1 && sel[|sel| - 1] == 5
      && (forall k :: 1 <= k < |sel| ==> after[sel[k]] == l[sel[k - 1]])
      && after[sel[0]] == (m.sr[0] + i.imm) % 256
  {
    var sel := Selected(i.w, 0);
    var l := Sources(m, i.imm);
    assert l[5] == (m.sr[0] + i.imm) % 256;
    LastSelected(i.w, 0);
    SelectedAscending(i.w, 0);
    PhysicsSlots(m, i);
    RotateSelected(Slots(m), l, sel);
  }

  /** PHYSICS leaves every slot whose bit is clear, the memory, the
      speed and the instruction pointer as they were. */
  lemma PhysicsFrame(m: Machine, i: Inst)
    requires Shaped(m) && Bit(i.w, 5) == 1
    ensures var after := Slots(Physics(m, i));
      forall j :: 0 <= j < 6 && Bit(i.w, j) == 0 ==> after[j] == Slots(m)[j]
    ensures Physics(m, i).mem == m.mem && Physics(m, i).speed == m.speed && Physics(m, i).ip == m.ip
  {
    var sel := Selected(i.w, 0);
    var l := Sources(m, i.imm);
    LastSelected(i.w, 0);
    SelectedOnlySet(i.w, 0);
    SelectedAscending(i.w, 0);
    PhysicsSlots(m, i);
    RotateSelected(Slots(m), l, sel);
    var after := Assign(Slots(m), l, sel + [sel[0]]);
    forall j | 0 <= j < 6 && Bit(i.w, j) == 0
      ensures after[j] == Slots(m)[j]
    {
      assert j !in sel;
    }
  }

  // ------------------------------------------------------------ the loop

  const USIZE: nat := 0x1_0000_0000_0000_0000

  /** `ip += is as i8 as usize; ip %= code.len()` as written: the speed is
      sign-extended to 64 bits, the addition wraps at 2^64, and only then is
      the result reduced modulo the code length. */
  function NextIpAsWritten(ip: nat, speed: Byte, len: nat): nat
    requires len > 0 && ip < USIZE
  {
    var extended := if speed < 128 then speed as int else USIZE - 256 + speed;
    ((ip + extended) % USIZE) % len
  }

  /** The circular step the machine is meant to take: `ip` moves by the
      signed speed around a ring of `len` instructions. */
  function NextIp(ip: nat, speed: Byte, len: nat): (r: nat)
    requires len > 0
    ensures r < len
    ensures 0 <= ip + Signed(speed) < len ==> r == ip + Signed(speed)
    ensures 0 <= ip + Signed(speed) + len && ip + Signed(speed) < 0 ==> r == ip + Signed(speed) + len
    ensures len <= ip + Signed(speed) < 2 * len ==> r == ip + Signed(speed) - len
  {
    ModNear(ip + Signed(speed), len);
    (ip + Signed(speed)) % len
  }

  /** Reduction modulo len of a value within one len of the range 0..len-1. */
  lemma ModNear(x: int, len: nat)
    requires len > 0
    ensures 0 <= x < len ==> x % len == x
    ensures 0 <= x + len && x < 0 ==> x % len == x + len
    ensures len <= x < 2 * len ==> x % len == x - len
  {
    if 0 <= x < len {
      ModShift(x, len, 0);
    } else if 0 <= x + len && x < 0 {
      ModShift(x, len, -1);
    } else if len <= x < 2 * len {
      ModShift(x, len, 1);
    }
  }

  lemma ModShift(x: int, len: nat, q: int)
    requires len > 0 && 0 <= x - q * len < len
    ensures x % len == x - q * len
  {
    var q', r := x / len, x % len;
    assert (q' - q) * len == x - q * len - r;
    MulSmall(q' - q, len);
  }

  /** Whenever the addition does not go below zero, the code as written
      takes the circular step. */
  lemma NextIpAgrees(ip: nat, speed: Byte, len: nat)
    requires len > 0 && ip + 256 < USIZE
    requires ip + Signed(speed) >= 0
    ensures NextIpAsWritten(ip, speed, len) == NextIp(ip, speed, len)
  {
  }

  /** With twelve instructions, speed -1 at instruction 0 should move to
      instruction 11; the code as written moves to 3, since 2^64 - 1 is 3
      modulo 12. */
  lemma NextIpWrapsWrongly()
    ensures NextIpAsWritten(0, 0xFF, 12) == 3
    ensures NextIp(0, 0xFF, 12) == 11
  {
  }

  /** What one pass of the `execute` loop does. */
  datatype Outcome =
    | Next(m: Machine)     // the loop continues
    | Stop(m: Machine)     // `return` from SCIENCE with speed 0, or an opcode 4..7
    | Crash                // `code[ip]` out of bounds

  /** Move `ip` by the speed, as after every arm that does not return, with
      the 64-bit wrap-around of the code as written. The result is the
      circular step whenever the addition neither goes below zero nor
      reaches 2^64. */
  function Advance(m: Machine): (r: Outcome)
    requires |m.code| > 0 && m.ip < USIZE
    ensures r.Next? && r.m.(ip := m.ip) == m && r.m.ip < |m.code|
    ensures m.ip + 256 < USIZE && m.ip + Signed(m.speed) >= 0 ==> r.m.ip == NextIp(m.ip, m.speed, |m.code|)
  {
    Next(m.(ip := NextIpAsWritten(m.ip, m.speed, |m.code|)))
  }

  /** The SCIENCE arm: a non-zero byte at `sr[0]` sets the speed to `imm`. */
  function Science(m: Machine, imm: Byte): (r: Machine)
    requires Shaped(m)
    ensures r.speed == (if Read(m, 0) != 0 then imm else m.speed)
    ensures r.(speed := m.speed) == m
  {
    m.(speed := if Read(m, 0) != 0 then imm else m.speed)
  }

  /** One pass of the `execute` loop. */
  function Step(m: Machine): (r: Outcome)
    requires Shaped(m)
    ensures r.Crash? <==> m.ip >= |m.code|
    ensures !r.Crash? ==> Shaped(r.m) && r.m.code == m.code
    ensures r.Next? ==> r.m.ip < |m.code|
    ensures r.Stop? ==> r.m.ip == m.ip
    ensures r.Stop? <==> (m.ip < |m.code| &&
      (Opcode(m.code[m.ip]) >= 4 || (Opcode(m.code[m.ip]) == 0 && Science(m, Sext5(m.code[m.ip])).speed == 0)))
    ensures !r.Crash? && Opcode(m.code[m.ip]) != 3 ==> r.m.sr == m.sr && r.m.dr == m.dr
    ensures !r.Crash? && (Opcode(m.code[m.ip]) == 0 || Opcode(m.code[m.ip]) == 3) ==> r.m.mem == m.mem
  {
    if m.ip >= |m.code| then Crash
    else
      var i := Decode(m.code[m.ip]);
      match Opcode(i.w)
      case 0 =>
        var t := Science(m, i.imm);
        if t.speed == 0 then Stop(t) else Advance(t)
      case 1 => Advance(Combine(m, ByteSub, ByteAdd, i))
      case 2 => Advance(Combine(m, ByteXor, ByteAnd, i))
      case 3 =>
        PhysicsHasBit5(i.w);
        Advance(Physics(m, i))
      case _ => Stop(m)
  }

  /** One pass at a SCIENCE instruction. */
  lemma StepScience(m: Machine)
    requires Shaped(m) && m.ip < |m.code| && Opcode(m.code[m.ip]) == 0
    ensures var t := Science(m, Sext5(m.code[m.ip]));
      Step(m) == if t.speed == 0 then Stop(t) else Advance(t)
  {
  }

  /** One pass at a MATH instruction. */
  lemma StepMath(m: Machine)
    requires Shaped(m) && m.ip < |m.code| && Opcode(m.code[m.ip]) == 1
    ensures Step(m) == Advance(Combine(m, ByteSub, ByteAdd, Decode(m.code[m.ip])))
  {
  }

  /** One pass at a LOGIC instruction. */
  lemma StepLogic(m: Machine)
    requires Shaped(m) && m.ip < |m.code| && Opcode(m.code[m.ip]) == 2
    ensures Step(m) == Advance(Combine(m, ByteXor, ByteAnd, Decode(m.code[m.ip])))
  {
  }

  /** One pass at a PHYSICS instruction. */
  lemma StepPhysics(m: Machine)
    requires Shaped(m) && m.ip < |m.code| && Opcode(m.code[m.ip]) == 3
    ensures Bit(m.code[m.ip], 5) == 1
    ensures Step(m) == Advance(Physics(m, Decode(m.code[m.ip])))
  {
    PhysicsHasBit5(m.code[m.ip]);
  }

  datatype RunResult = Halted(m: Machine) | Crashed | OutOfFuel(m: Machine)

  /** `execute`, bounded by `fuel` passes of the loop. */
  function Run(m: Machine, fuel: nat): (r: RunResult)
    requires Shaped(m)
    ensures m.ip < |m.code| ==> !r.Crashed?
    ensures !r.Crashed? ==> Shaped(r.m) && r.m.code == m.code
    ensures r.Halted? ==> r.m.ip < |m.code| || m.ip >= |m.code|
    decreases fuel
  {
    if fuel == 0 then OutOfFuel(m)
    else match Step(m)
      case Next(t) => Run(t, fuel - 1)
      case Stop(t) => Halted(t)
      case Crash => Crashed
  }

  /** The pass itself takes the step as written: a MATH instruction at ip 0
      of twelve, with speed -1, moves to ip 3. */
  lemma StepWrapsAsWritten(m: Machine)
    requires Shaped(m) && |m.code| == 12 && m.ip == 0 && m.speed == 0xFF
    requires Opcode(m.code[0]) == 1
    ensures Step(m).Next? && Step(m).m.ip == 3
  {
    NextIpWrapsWrongly();
  }

  /** A pass that moves on leaves the rest of the run to the next machine. */
  lemma RunNext(m: Machine, fuel: nat, t: Machine)
    requires Shaped(m) && fuel > 0 && Step(m) == Next(t)
    ensures Run(m, fuel) == Run(t, fuel - 1)
  {
  }
}
