/** The disassembler of src/bin/disassembler.rs: every word of a program
    becomes one text line holding its address in hexadecimal and the
    operator with the fields that operator uses. Operator codes 14 and 15
    print nothing after the address.

    The listing is modelled as text, and its partner is a parser for that
    text: parsing a listing gives back, line by line, the address and the
    decoded fields, and the decoded fields re-encode to the word whenever
    the word has no bits the listing leaves unshown.
 */
module Disassembler {
  import opened Words
  import opened Instruction
  import opened Options
  import opened Numerals

  /** What a listing line shows after the address. */
  datatype Line =
    | Abc(op: Op, a: RegIndex, b: RegIndex, c: RegIndex)
    | Bc(op: Op, b: RegIndex, c: RegIndex)
    | C(op: Op, c: RegIndex)
    | Halt
    | Imm(r: RegIndex, v: nat)
    | Blank  // nothing after the address

  /** Operators printed with registers a, b and c. */
  predicate ShowsThree(op: Op) {
    op.CMOVE? || op.RMEM? || op.WMEM? || op.ADD? || op.MUL? || op.DIV? || op.NAND?
  }

  /** Operators printed with registers b and c. */
  predicate ShowsTwo(op: Op) { op.ALLOC? || op.JUMP? }

  /** Operators printed with register c only. */
  predicate ShowsOne(op: Op) { op.FREE? || op.OUT? || op.IN? }

  predicate WellFormed(l: Line) {
    match l
    case Abc(op, _, _, _) => ShowsThree(op)
    case Bc(op, _, _) => ShowsTwo(op)
    case C(op, _) => ShowsOne(op)
    case Imm(_, v) => v < 0x200_0000
    case _ => true
  }

  /** The `match w >> 28` of the main loop, without the text; the fourteen
      arms are grouped by the fields they print. */
  function Disassemble(w: u32): (l: Line)
    ensures WellFormed(l)
    ensures l.Blank? <==> OpOf(w).INVALID?
    ensures l.Halt? <==> OpOf(w) == HALT
    ensures l.Imm? <==> OpOf(w) == IMM
    ensures (l.Abc? || l.Bc? || l.C?) ==> l.op == OpOf(w)
    ensures l.Abc? ==> l.a == FieldA(w) && l.b == FieldB(w) && l.c == FieldC(w)
    ensures l.Bc? ==> l.b == FieldB(w) && l.c == FieldC(w)
    ensures l.C? ==> l.c == FieldC(w)
    ensures l.Imm? ==> l.r == ImmReg(w) && l.v == ImmValue(w)
  {
    var op := OpOf(w);
    if ShowsThree(op) then Abc(op, FieldA(w), FieldB(w), FieldC(w))
    else if ShowsTwo(op) then Bc(op, FieldB(w), FieldC(w))
    else if ShowsOne(op) then C(op, FieldC(w))
    else if op == HALT then Halt
    else if op == IMM then Imm(ImmReg(w), ImmValue(w))
    else Blank
  }

  /** The bits of a word that its listing line does not show: everything
      between the operator and the lowest shown register field. */
  function HiddenBits(w: u32): nat {
    var op := OpOf(w);
    if ShowsThree(op) then w / 512 % 0x8_0000
    else if ShowsTwo(op) then w / 64 % 0x40_0000
    else if ShowsOne(op) then w / 8 % 0x200_0000
    else if op == IMM then 0
    else w % 0x1000_0000
  }

  /** The word a line stands for, with every unshown bit clear; a line
      with nothing after the address stands for no word, since it does
      not say whether the operator was 14 or 15. */
  function Reassemble(l: Line): Option<u32>
    requires WellFormed(l)
  {
    match l
    case Abc(op, a, b, c) => Some(EncodeABC(Code(op), a, b, c))
    case Bc(op, b, c) => Some(EncodeABC(Code(op), 0, b, c))
    case C(op, c) => Some(EncodeABC(Code(op), 0, 0, c))
    case Halt => Some(EncodeABC(7, 0, 0, 0))
    case Imm(r, v) => Some(EncodeImm(r, v))
    case Blank => None
  }

  /** Every line with text after the address is what its own word disassembles to. */
  lemma DisassembleReassemble(l: Line)
    requires WellFormed(l) && !l.Blank?
    ensures Reassemble(l).Some? && Disassemble(Reassemble(l).value) == l
  {
    match l
    case Abc(op, a, b, c) => DecodesTo(op, a, b, c);
    case Bc(op, b, c) => DecodesTo(op, 0, b, c);
    case C(op, c) => DecodesTo(op, 0, 0, c);
    case Halt => DecodesTo(HALT, 0, 0, 0);
    case Imm(r, v) => DecodeEncodeImm(r, v);
  }

  lemma DecodesTo(op: Op, a: RegIndex, b: RegIndex, c: RegIndex)
    requires !op.INVALID?
    ensures OpOf(EncodeABC(Code(op), a, b, c)) == op
    ensures FieldA(EncodeABC(Code(op), a, b, c)) == a
    ensures FieldB(EncodeABC(Code(op), a, b, c)) == b
    ensures FieldC(EncodeABC(Code(op), a, b, c)) == c
  {
    DecodeEncodeABC(Code(op), a, b, c);
    OpOfCode(op, EncodeABC(Code(op), a, b, c));
  }

  /** The listing loses exactly the operator codes 14 and 15 and the
      unshown bits: a word is recovered from its line if and only if it has
      a valid operator and no unshown bit set. */
  lemma ReassembleDisassemble(w: u32)
    ensures Reassemble(Disassemble(w)) == Some(w) <==> !OpOf(w).INVALID? && HiddenBits(w) == 0
  {
    var op := OpOf(w);
    HiddenFields(w);
    if ShowsThree(op) {
      Decompose(w);
    } else if ShowsTwo(op) {
      Decompose(w);
    } else if ShowsOne(op) {
      Decompose(w);
    } else if op == HALT {
      Decompose(w);
    } else if op == IMM {
      ImmRoundTrip(w);
    }
  }

  /** The unshown bit ranges in terms of the spare bits and register fields. */
  lemma HiddenFields(w: u32)
    ensures w / 64 % 0x40_0000 == SpareBits(w) * 8 + FieldA(w)
    ensures w / 8 % 0x200_0000 == SpareBits(w) * 64 + FieldA(w) * 8 + FieldB(w)
    ensures w % 0x1000_0000 == SpareBits(w) * 512 + FieldA(w) * 64 + FieldB(w) * 8 + FieldC(w)
  {
    Decompose(w);
    var op: int, spare: int, a: int, b: int, c: int := Opcode(w), SpareBits(w), FieldA(w), FieldB(w), FieldC(w);
    assert w / 64 == op * 0x40_0000 + spare * 8 + a;
    assert w / 8 == op * 0x200_0000 + spare * 64 + a * 8 + b;
  }

  // ---------------------------------------------------------------- text

  /** The operator names, padded to the five columns the format strings use. */
  function Mnemonic(op: Op): (m: string)
    ensures |m| == 5
  {
    match op
    case CMOVE => "CMOVE"
    case RMEM => "RMEM "
    case WMEM => "WMEM "
    case ADD => "ADD  "
    case MUL => "MUL  "
    case DIV => "DIV  "
    case NAND => "NAND "
    case HALT => "HALT "
    case ALLOC => "ALLOC"
    case FREE => "FREE "
    case OUT => "OUT  "
    case IN => "IN   "
    case JUMP => "JUMP "
    case IMM => "IMM  "
    case INVALID(_) => "     "
  }

  /** ` ${}` for a register number. */
  function Reg(x: RegIndex): string { " $" + Digits(x, 10) }

  /** The text after `: ` (src/bin/disassembler.rs:39-53). */
  function Render(l: Line): string {
    match l
    case Abc(op, a, b, c) => Mnemonic(op) + Reg(a) + Reg(b) + Reg(c)
    case Bc(op, b, c) => Mnemonic(op) + Reg(b) + Reg(c)
    case C(op, c) => Mnemonic(op) + Reg(c)
    case Halt => "HALT"
    case Imm(r, v) => Mnemonic(IMM) + Reg(r) + " " + Digits(v, 10)
    case Blank => ""
  }

  /** `{:#06x}`: `0x` and at least four lower-case hexadecimal digits. */
  function Address(pc: nat): (s: string)
    ensures |s| >= 6 && s[..2] == "0x"
  {
    "0x" + PadZeros(Digits(pc, 16), 4)
  }

  /** One line of output for the word at `pc`, newline included. */
  function ListingLine(pc: nat, w: u32): string {
    Address(pc) + ": " + Render(Disassemble(w)) + "\n"
  }

  /** The whole output for the words of `program`, the first at address `pc`. */
  function Listing(program: seq<u32>, pc: nat): string {
    if program == [] then [] else ListingLine(pc, program[0]) + Listing(program[1..], pc + 1)
  }

  // ------------------------------------------------------------- parsing

  function IndexOf(s: string, ch: char): (i: Option<nat>)
    ensures i.Some? ==> i.value < |s| && s[i.value] == ch && ch !in s[..i.value]
    ensures i.None? ==> ch !in s
  {
    if s == [] then None
    else if s[0] == ch then Some(0)
    else match IndexOf(s[1..], ch)
      case None => None
      case Some(k) => assert s[..k + 1] == [s[0]] + s[1..][..k]; Some(k + 1)
  }

  lemma {:induction false} IndexOfJoin(a: string, ch: char, b: string)
    requires ch !in a
    ensures IndexOf(a + [ch] + b, ch) == Some(|a|)
  {
    if a != [] {
      assert a[0] != ch;
      assert (a + [ch] + b)[1..] == a[1..] + [ch] + b;
      IndexOfJoin(a[1..], ch, b);
    }
  }

  /** The text split at each newline; a final newline ends the last line. */
  function SplitLines(text: string): seq<string>
    decreases |text|
  {
    if text == [] then []
    else match IndexOf(text, '\n')
      case None => [text]
      case Some(i) => [text[..i]] + SplitLines(text[i + 1..])
  }

  /** A register operand ` $d` at position i. */
  function RegAt(s: string, i: nat): Option<RegIndex>
    requires i + 3 <= |s|
  {
    if s[i] == ' ' && s[i + 1] == '$' && '0' <= s[i + 2] <= '7'
    then Some(s[i + 2] as int - '0' as int) else None
  }

  /** The operator whose padded name is m. */
  function OpNamed(m: string): (op: Option<Op>)
    ensures op.Some? ==> !op.value.INVALID? && op.value != HALT && Mnemonic(op.value) == m
  {
    if m == "CMOVE" then Some(CMOVE)
    else if m == "RMEM " then Some(RMEM)
    else if m == "WMEM " then Some(WMEM)
    else if m == "ADD  " then Some(ADD)
    else if m == "MUL  " then Some(MUL)
    else if m == "DIV  " then Some(DIV)
    else if m == "NAND " then Some(NAND)
    else if m == "ALLOC" then Some(ALLOC)
    else if m == "FREE " then Some(FREE)
    else if m == "OUT  " then Some(OUT)
    else if m == "IN   " then Some(IN)
    else if m == "JUMP " then Some(JUMP)
    else if m == "IMM  " then Some(IMM)
    else None
  }

  /** The operands after the mnemonic of op. */
  function ParseOperands(op: Op, rest: string): Option<Line> {
    if ShowsThree(op) then
      if |rest| != 9 then None
      else match (RegAt(rest, 0), RegAt(rest, 3), RegAt(rest, 6))
        case (Some(a), Some(b), Some(c)) => Some(Abc(op, a, b, c))
        case _ => None
    else if ShowsTwo(op) then
      if |rest| != 6 then None
      else match (RegAt(rest, 0), RegAt(rest, 3))
        case (Some(b), Some(c)) => Some(Bc(op, b, c))
        case _ => None
    else if ShowsOne(op) then
      if |rest| != 3 then None
      else match RegAt(rest, 0)
        case Some(c) => Some(C(op, c))
        case None => None
    else if op == IMM then
      if |rest| < 5 || rest[3] != ' ' || !AllDigits(rest[4..], 10) then None
      else match RegAt(rest, 0)
        case Some(r) =>
          var v := Value(rest[4..], 10);
          if v < 0x200_0000 then Some(Imm(r, v)) else None
        case None => None
    else None
  }

  /** The text after `: ` back to the line it shows. */
  function ParseText(t: string): (l: Option<Line>)
    ensures l.Some? ==> WellFormed(l.value)
  {
    if t == "" then Some(Blank)
    else if t == "HALT" then Some(Halt)
    else if |t| < 5 then None
    else match OpNamed(t[..5])
      case None => None
      case Some(op) => ParseOperands(op, t[5..])
  }

  function ParseAddress(a: string): Option<nat> {
    if |a| >= 3 && a[..2] == "0x" && AllDigits(a[2..], 16) then Some(Value(a[2..], 16)) else None
  }

  /** One listing line, without its newline, back to address and line. */
  function ParseListingLine(s: string): Option<(nat, Line)> {
    match IndexOf(s, ':')
    case None => None
    case Some(i) =>
      if i + 2 > |s| || s[i + 1] != ' ' then None
      else match (ParseAddress(s[..i]), ParseText(s[i + 2..]))
        case (Some(pc), Some(l)) => Some((pc, l))
        case _ => None
  }

  function ParseLines(ls: seq<string>): (ps: seq<Option<(nat, Line)>>)
    ensures |ps| == |ls|
  {
    if ls == [] then [] else [ParseListingLine(ls[0])] + ParseLines(ls[1..])
  }

  function ParseListing(text: string): seq<Option<(nat, Line)>> {
    ParseLines(SplitLines(text))
  }

  // ---------------------------------------------------------- round trips

  lemma RegText(x: RegIndex)
    ensures Reg(x) == [' ', '$', ('0' as int + x) as char]
  {
  }

  lemma OpNamedMnemonic(op: Op)
    requires !op.INVALID? && op != HALT
    ensures OpNamed(Mnemonic(op)) == Some(op)
  {
  }

  /** Three register operands read back. */
  lemma ThreeRegs(a: RegIndex, b: RegIndex, c: RegIndex)
    ensures var rest := Reg(a) + Reg(b) + Reg(c);
      |rest| == 9 && RegAt(rest, 0) == Some(a) && RegAt(rest, 3) == Some(b) && RegAt(rest, 6) == Some(c)
  {
    RegText(a);
    RegText(b);
    RegText(c);
  }

  lemma TwoRegs(b: RegIndex, c: RegIndex)
    ensures var rest := Reg(b) + Reg(c);
      |rest| == 6 && RegAt(rest, 0) == Some(b) && RegAt(rest, 3) == Some(c)
  {
    RegText(b);
    RegText(c);
  }

  lemma ParseAbc(op: Op, a: RegIndex, b: RegIndex, c: RegIndex)
    requires ShowsThree(op)
    ensures ParseText(Render(Abc(op, a, b, c))) == Some(Abc(op, a, b, c))
  {
    var t := Render(Abc(op, a, b, c));
    ThreeRegs(a, b, c);
    OpNamedMnemonic(op);
    assert t[..5] == Mnemonic(op) && t[5..] == Reg(a) + Reg(b) + Reg(c);
  }

  lemma ParseBc(op: Op, b: RegIndex, c: RegIndex)
    requires ShowsTwo(op)
    ensures ParseText(Render(Bc(op, b, c))) == Some(Bc(op, b, c))
  {
    var t := Render(Bc(op, b, c));
    TwoRegs(b, c);
    OpNamedMnemonic(op);
    assert t[..5] == Mnemonic(op) && t[5..] == Reg(b) + Reg(c);
  }

  lemma ParseC(op: Op, c: RegIndex)
    requires ShowsOne(op)
    ensures ParseText(Render(C(op, c))) == Some(C(op, c))
  {
    var t := Render(C(op, c));
    RegText(c);
    OpNamedMnemonic(op);
    assert t[..5] == Mnemonic(op) && t[5..] == Reg(c);
  }

  lemma ParseImm(r: RegIndex, v: nat)
    requires v < 0x200_0000
    ensures ParseText(Render(Imm(r, v))) == Some(Imm(r, v))
  {
    var t := Render(Imm(r, v));
    RegText(r);
    OpNamedMnemonic(IMM);
    var rest := Reg(r) + " " + Digits(v, 10);
    assert t[..5] == Mnemonic(IMM) && t[5..] == rest;
    assert rest[4..] == Digits(v, 10);
    ValueOfDigits(v, 10);
    assert RegAt(rest, 0) == Some(r);
  }

  /** The text of every line parses back to that line. */
  lemma ParseRender(l: Line)
    requires WellFormed(l)
    ensures ParseText(Render(l)) == Some(l)
  {
    match l
    case Abc(op, a, b, c) => ParseAbc(op, a, b, c);
    case Bc(op, b, c) => ParseBc(op, b, c);
    case C(op, c) => ParseC(op, c);
    case Imm(r, v) => ParseImm(r, v);
    case Halt =>
    case Blank =>
  }

  /** The address column reads back as the address. */
  lemma ParseAddressOf(pc: nat)
    ensures ParseAddress(Address(pc)) == Some(pc)
  {
    var ds := Digits(pc, 16);
    var k := if |ds| < 4 then 4 - |ds| else 0;
    assert PadZeros(ds, 4) == Repeat('0', k) + ds;
    LeadingZeros(k, ds, 16);
    ValueOfDigits(pc, 16);
    assert Address(pc)[2..] == PadZeros(ds, 4);
  }

  /** Digits are neither colons nor newlines. */
  lemma DigitsPlain(s: string, base: nat)
    requires IsBase(base) && AllDigits(s, base)
    ensures ':' !in s && '\n' !in s
  {
    forall i | 0 <= i < |s|
      ensures s[i] != ':' && s[i] != '\n'
    {
      assert DigitValue(s[i], base).Some?;
    }
  }

  lemma AddressPlain(pc: nat)
    ensures ':' !in Address(pc) && '\n' !in Address(pc)
  {
    var ds := Digits(pc, 16);
    var k := if |ds| < 4 then 4 - |ds| else 0;
    assert PadZeros(ds, 4) == Repeat('0', k) + ds;
    LeadingZeros(k, ds, 16);
    DigitsPlain(PadZeros(ds, 4), 16);
    assert Address(pc) == "0x" + PadZeros(ds, 4);
  }

  lemma MnemonicPlain(op: Op)
    ensures '\n' !in Mnemonic(op)
  {
    var m := Mnemonic(op);
    forall k | 0 <= k < 5
      ensures m[k] != '\n'
    {
    }
  }

  lemma RegPlain(x: RegIndex)
    ensures '\n' !in Reg(x)
  {
    RegText(x);
  }

  lemma RenderPlain(l: Line)
    requires WellFormed(l)
    ensures '\n' !in Render(l)
  {
    match l
    case Imm(r, v) =>
      DigitsPlain(Digits(v, 10), 10);
      MnemonicPlain(IMM);
      RegPlain(r);
    case Abc(op, a, b, c) =>
      MnemonicPlain(op);
      RegPlain(a); RegPlain(b); RegPlain(c);
    case Bc(op, b, c) =>
      MnemonicPlain(op);
      RegPlain(b); RegPlain(c);
    case C(op, c) =>
      MnemonicPlain(op);
      RegPlain(c);
    case _ =>
  }

  /** Neither the address nor the text contains a newline, and the address
      contains no colon. */
  lemma LineCharacters(pc: nat, l: Line)
    requires WellFormed(l)
    ensures ':' !in Address(pc)
    ensures '\n' !in Address(pc) + ": " + Render(l)
  {
    AddressPlain(pc);
    RenderPlain(l);
  }

  /** A line split at its first colon: the address before it, the text
      after the following space. */
  lemma ParseListingLineJoin(a: string, t: string)
    requires ':' !in a
    ensures ParseListingLine(a + ": " + t) ==
      if ParseAddress(a).Some? && ParseText(t).Some? then Some((ParseAddress(a).value, ParseText(t).value)) else None
  {
    var s := a + ": " + t;
    assert s == a + [':'] + (" " + t);
    IndexOfJoin(a, ':', " " + t);
    var i := |a|;
    assert s[..i] == a && s[i + 1] == ' ' && s[i + 2..] == t;
  }

  /** A listing line without its newline parses back to its address and line. */
  lemma ParseListingLineOf(pc: nat, l: Line)
    requires WellFormed(l)
    ensures ParseListingLine(Address(pc) + ": " + Render(l)) == Some((pc, l))
  {
    AddressPlain(pc);
    ParseListingLineJoin(Address(pc), Render(l));
    ParseAddressOf(pc);
    ParseRender(l);
  }

  lemma ParseListingJoin(line: string, rest: string)
    requires '\n' !in line
    ensures ParseListing(line + "\n" + rest) == [ParseListingLine(line)] + ParseListing(rest)
  {
    SplitLinesJoin(line, rest);
    assert ([line] + SplitLines(rest))[1..] == SplitLines(rest);
  }

  lemma {:induction false} SplitLinesJoin(line: string, rest: string)
    requires '\n' !in line
    ensures SplitLines(line + "\n" + rest) == [line] + SplitLines(rest)
  {
    IndexOfJoin(line, '\n', rest);
    var t := line + "\n" + rest;
    assert t[..|line|] == line && t[|line| + 1..] == rest;
  }

  /** `p` holds, line by line, each word's address and disassembled line,
      the first word at address `pc`. */
  predicate ParsedAs(p: seq<Option<(nat, Line)>>, program: seq<u32>, pc: nat) {
    && |p| == |program|
    && forall k :: 0 <= k < |program| ==> p[k] == Some((pc + k, Disassemble(program[k])))
  }

  /** Parsing the whole output gives, line by line, each word's address
      and disassembled line. */
  lemma {:induction false} ParseListingOf(program: seq<u32>, pc: nat)
    ensures ParsedAs(ParseListing(Listing(program, pc)), program, pc)
    decreases |program|
  {
    if program != [] {
      var l := Disassemble(program[0]);
      var line := Address(pc) + ": " + Render(l);
      LineCharacters(pc, l);
      var rest := Listing(program[1..], pc + 1);
      ParseListingJoin(line, rest);
      assert Listing(program, pc) == line + "\n" + rest;
      ParseListingLineOf(pc, l);
      ParseListingOf(program[1..], pc + 1);
      assert ParseListing(Listing(program, pc)) == [Some((pc, l))] + ParseListing(rest);
      ListingShift(program, pc, ParseListing(rest));
    }
  }

  /** The induction step of `ParseListingOf`: one parsed line in front of
      the parse of the rest. */
  lemma ListingShift(program: seq<u32>, pc: nat, q: seq<Option<(nat, Line)>>)
    requires program != [] && ParsedAs(q, program[1..], pc + 1)
    ensures ParsedAs([Some((pc, Disassemble(program[0])))] + q, program, pc)
  {
    var p := [Some((pc, Disassemble(program[0])))] + q;
    forall k | 0 <= k < |program|
      ensures p[k] == Some((pc + k, Disassemble(program[k])))
    {
      if k > 0 {
        assert p[k] == q[k - 1];
        assert program[1..][k - 1] == program[k];
      }
    }
  }

  /** From the listing of a program, every word with a valid operator and
      no unshown bit set is recovered exactly. */
  lemma ListingRecoversWords(program: seq<u32>, k: nat)
    requires k < |program| && !OpOf(program[k]).INVALID? && HiddenBits(program[k]) == 0
    ensures var p := ParseListing(Listing(program, 0));
      && |p| == |program| && p[k].Some? && p[k].value.0 == k
      && WellFormed(p[k].value.1) && Reassemble(p[k].value.1) == Some(program[k])
  {
    ParseListingOf(program, 0);
    ReassembleDisassemble(program[k]);
  }
}
