# ICFP 2006 contest tools, modelled in Dafny

This project models the core of a Rust solution to the ICFP Programming
Contest 2006. It has five parts.

- **Universal Machine (UM).** The interpreter for the contest's 32-bit
  "Universal Machine": its fourteen operators, segmented memory with a
  free list of segment handles, and the `execute` loop that stops on
  output, on a request for input, or on HALT.
- **Host driver.** The loader that reads a program as big-endian 32-bit
  words (`read_program`), and the loop that prints output and answers
  each input request with one line (`run_cpu`).
- **Disassembler.** It prints one listing line per program word.
- **Balance VM.** An interpreter for the puzzle machine "Balance": 8-bit
  instructions, four source and two destination registers that hold
  memory addresses, a signed "instruction speed", and the cyclic register
  rotation of PHYSICS. It includes the multiplication test program that
  its `main` checks.
- **Adventure solver.** Tokenizer and recursive-descent parser for the
  text adventure's broken-item descriptions ("a X missing a Y and (a Z
  missing a W)"), and `find_commands`, which plans the `take` /
  `incinerate` / `combine` commands.

## How the model is built

- **Words and bytes.** These are integer subset types: `u32` is
  0..2^32-1 and `u8` is 0..255. Shifts become division and masks become
  remainders. The source's wrapping arithmetic is written out as `% 2^32`
  or `% 256`; this is release-mode Rust behaviour.
- **State.** The machine state is an immutable datatype, and one loop
  iteration is a pure function.
- **Rust panics.** Every panic becomes an explicit error value: an index
  out of bounds, `unreachable!`, `assert!`, or a division by zero. It is
  `Crash(fault)` in the UM, `Crash` in the Balance VM, and `Panic` in the
  adventure parser.
- **Unbounded loops** take a `fuel` argument: `CPU::execute`, `run_cpu`
  and `BalanceVM::execute`.
- **I/O as values.** Terminal input is a list of lines, and output is a
  list of events.

Modules:

| module | file | source |
|---|---|---|
| `Words` | um_words.dfy | 32-bit arithmetic and NAND |
| `Instruction` | um_instruction.dfy | word fields shared by src/cpu.rs and src/bin/disassembler.rs |
| `Cpu`, `CpuLemmas` | um_cpu.dfy, um_cpu_lemmas.dfy | src/cpu.rs |
| `Loader`, `Driver` | um_loader.dfy, um_driver.dfy | src/main.rs |
| `Disassembler`, `Numerals` | um_disassembler.dfy, numerals.dfy | src/bin/disassembler.rs |
| `Balance`, `BalanceTest` | balance_vm.dfy, balance_test.dfy | src/bin/balance-vm.rs |
| `Tokens`, `ItemParse`, `Adventure` | adventure_tokens.dfy, adventure_parse.dfy, adventure_solver.dfy | src/bin/adventure.rs |

## Model

| member | source | states |
|---|---|---|
| Words.BitwiseMeaning | src/cpu.rs:44 | bit k of the bit-by-bit gate combination is the gate applied to bit k of each operand |
| Words.NandMeaning | src/cpu.rs:44 | bit k of `Nand(x, y)` is 0 exactly when bit k is set in both x and y, for every k below 32 |
| Words.Nand | src/cpu.rs:44 | `!(reg[b] & reg[c])` on 32 bits; its meaning, bit by bit, is the contract of `Words.NandMeaning` |
| Words.AddWrap | src/cpu.rs:41 | release-mode `u32` addition; `Words.AddWrapCarry` and `CpuLemmas.AddValue` state what it gives |
| Words.AddWrapCarry | src/cpu.rs:41 | the wrapped sum is the sum when it fits in 32 bits and the sum less 2^32 otherwise, and it wrapped exactly when the result is below the first operand |
| Words.MulWrap | src/cpu.rs:42 | release-mode `u32` multiplication; `Words.MulWrapExact` and `CpuLemmas.MulValue` state what it gives |
| Words.MulWrapExact | src/cpu.rs:42 | the wrapped product is the product whenever that fits in 32 bits |
| Instruction.OpOf | src/cpu.rs:3-9 | the operator a word selects has the word's top four bits as its number; codes 14 and 15 name no operator |
| Instruction.OpOfCode | src/cpu.rs:39-60 | a word whose top four bits are an operator's number selects that operator |
| Instruction.DecodeEncodeABC | src/cpu.rs:34-39 | decoding a word built from an operator and registers a, b, c gives back each field and leaves bits 9..27 clear |
| Instruction.EncodeDecodeABC | src/cpu.rs:34-39 | re-encoding the decoded fields gives back the word if and only if bits 9..27 are clear |
| Instruction.Decompose | src/cpu.rs:34-39 | every word is the sum of its operator, spare, a, b and c fields at their bit positions |
| Instruction.ImmRoundTrip | src/cpu.rs:50 | for an immediate load, the destination register and the 25-bit value together determine the whole word |
| Instruction.DecodeEncodeImm | src/cpu.rs:50 | an immediate load built from register r and value v decodes as IMM with register r and value v |
| Cpu.Zeros | src/cpu.rs:81 | a fresh segment of size n has n words, all zero |
| Cpu.Resize | src/cpu.rs:78 | resizing keeps the existing words below the new size and fills the new words with zero |
| Cpu.New | src/cpu.rs:22-30 | a new machine has all registers zero, the program as its only segment, pc 0, no input and an empty free list |
| Cpu.Alloc | src/cpu.rs:75-83 | a handle comes from the end of the free list when one is there, otherwise the heap grows by one segment and the handle is its index; the new segment has the requested size, is all zero when it was empty before, and no other segment changes |
| Cpu.Free | src/cpu.rs:85-89 | freeing succeeds if and only if the handle names a segment; that segment is emptied, the handle goes to the end of the free list, and nothing else changes |
| Cpu.Jump | src/cpu.rs:70-73 | a jump succeeds if and only if the segment is 0 or exists; pc becomes the target; segment 0 is replaced by a copy of the named segment unless that is 0, and all other segments are kept |
| Cpu.PushStr | src/cpu.rs:65-68 | pushing a line appends its bytes and then a newline to the input queue; nothing else changes |
| Cpu.WriteRegister | src/cpu.rs:40-45 | the register-writing operators change only their destination register; DIV fails exactly on a zero divisor and RMEM exactly on an index out of bounds; CMOVE copies only when the condition register is non-zero; IMM stores the 25-bit value |
| Cpu.WriteMemory | src/cpu.rs:46 | WMEM succeeds if and only if the segment and the offset exist; it changes that one word to `reg[c]`, and nothing else |
| Cpu.Dispatch | src/cpu.rs:39-61 | an invalid operator crashes; the machine stops exactly on HALT, OUT, or IN with an empty queue; a stop for input rewinds pc onto the IN; OUT yields `reg[c]` as a byte; only JUMP changes pc |
| Cpu.Step | src/cpu.rs:34-38 | fetching past the end of segment 0 crashes, and only then; a stop for input leaves the state unchanged with an empty queue; any other stop leaves pc just past the instruction |
| Cpu.NeedInputStopsAtIn | src/cpu.rs:53-58 | a request for input always comes from an IN instruction at the current pc |
| Cpu.Execute | src/cpu.rs:32-63 | the loop preserves the free-list invariant; when it asks for input, the queue is empty and pc is on an IN, so pushing a line and running again performs the read |
| Cpu.Resume | src/cpu.rs:32-63 | a continuing step resumes the loop, a stop is returned with its code, and a crash is a crash |
| Cpu.ExecuteFuelMonotone | src/cpu.rs:32-63 | once a run finishes within some fuel, any larger fuel gives the same result |
| Cpu.ResumeFuelMonotone | src/cpu.rs:32-63 | a finished resumption gives the same result with any larger fuel |
| CpuLemmas.AllocFreeAllocReuses | src/cpu.rs:75-89 | allocating, freeing that handle and allocating again returns the same handle, with a zero-filled segment of the new size |
| CpuLemmas.StepWritesOnlyDestination | src/cpu.rs:40-50 | a successful register-writing instruction changes no register but its destination, and nothing in memory |
| CpuLemmas.AddValue | src/cpu.rs:41 | ADD always succeeds and puts `reg[b] + reg[c]` modulo 2^32 in register a |
| CpuLemmas.MulValue | src/cpu.rs:42 | MUL always succeeds and puts `reg[b] * reg[c]` modulo 2^32 in register a |
| CpuLemmas.DivValue | src/cpu.rs:43 | DIV by a non-zero register succeeds and puts the quotient rounded down in register a |
| CpuLemmas.LoadValue | src/cpu.rs:45 | RMEM of an existing segment and offset succeeds and puts that word in register a |
| CpuLemmas.NandValue | src/cpu.rs:44 | NAND always succeeds, and bit k of register a is clear exactly when bit k is set in both `reg[b]` and `reg[c]` |
| CpuLemmas.InResumesAfterPush | src/cpu.rs:53-58 | after a stop for input, pushing a line and stepping reads the line's first byte into `reg[c]` and keeps the rest queued |
| CpuLemmas.StepImm | src/cpu.rs:50 | an immediate load sets exactly its register to the value and moves on |
| CpuLemmas.StepSuspends | src/cpu.rs:51-52 | HALT stops with Halted and OUT stops with `reg[c] % 256`, each past the instruction |
| CpuLemmas.LoadAndOutput | src/cpu.rs:50-52 | an immediate load into register 0 followed by OUT prints the loaded byte |
| CpuLemmas.AbcPair | src/cpu.rs:50-52 | in a seven-word program that prints "abc" and halts, each load-and-output pair prints the next letter |
| CpuLemmas.AbcHalts | src/cpu.rs:51 | the same program then stops with Halted |
| CpuLemmas.OutputsInOrder | src/cpu.rs:32-63 | successive `execute` calls on that program yield 'a', 'b', 'c' and then Halted |
| Loader.BytesOfBigEndian | src/main.rs:12-18 | splitting the word assembled from four bytes gives the bytes back, most significant first |
| Loader.BigEndianOfBytes | src/main.rs:12-18 | assembling a word's four bytes gives the word back |
| Loader.ReadProgram | src/main.rs:8-21 | the program has one word per complete group of four bytes, and word k is bytes 4k..4k+3 read big-endian |
| Loader.ReadWrite | src/main.rs:8-21 | reading the big-endian bytes of any word list gives the list back |
| Loader.WriteRead | src/main.rs:8-21 | a byte string whose length is a multiple of four is the big-endian encoding of the program read from it |
| Loader.TrailingBytesIgnored | src/main.rs:10-11 | one to three bytes left over after the last complete group are dropped |
| Loader.ReadAppend | src/main.rs:10-19 | reading a concatenation whose first part is whole words is reading each part |
| Driver.Run | src/main.rs:23-37 | the session obeys the host protocol: a line is pushed exactly after each request for input, nothing follows Halted, it ends Finished exactly when the last event is Halted, and the lines pushed are a prefix of the input lines in order |
| Driver.Handle | src/main.rs:27-34 | each kind of `execute` result is handled so that the session still obeys the host protocol |
| Driver.Feed | src/main.rs:29-32 | answering a request for input with the first line keeps the protocol and consumes exactly that line |
| Driver.Pass | src/main.rs:28 | an output event keeps the protocol and consumes no line |
| Driver.ProtocolAfterExit | src/main.rs:28 | an output event in front of a protocol-abiding session keeps the protocol and pushes no extra line |
| Driver.ProtocolAfterFeed | src/main.rs:29-32 | a request answered by one line, in front of a protocol-abiding session, keeps the protocol and adds that line first |
| Driver.PushedLinesCons | src/main.rs:31 | the lines pushed by a session are those of its first event, then those of the rest |
| Driver.RunAbc | src/main.rs:23-37 | run with no input lines, the seven-word program that prints "abc" gives the events Output(97), Output(98), Output(99), Halted, ends Finished, and prints exactly the bytes 97, 98, 99 |
| Disassembler.Disassemble | src/bin/disassembler.rs:33-55 | a word shows no instruction text after its address exactly when its operator is invalid, as HALT exactly for HALT, as IMM exactly for IMM (with bits 25..27 as the register and bits 0..24 as the value), and otherwise with its own operator and the values of the register fields that operator prints: a, b, c; b, c; or c alone |
| Disassembler.DisassembleReassemble | src/bin/disassembler.rs:38-54 | every listing line with text after its address is the disassembly of some word |
| Disassembler.ReassembleDisassemble | src/bin/disassembler.rs:38-54 | a word can be recovered from its listing line if and only if its operator is valid and it has no bits that the line does not show |
| Disassembler.DecodesTo | src/bin/disassembler.rs:34-38 | a word built from an operator and three registers decodes to that operator and those registers |
| Disassembler.HiddenFields | src/bin/disassembler.rs:34-36 | the low bits of a word split into the spare field and the register fields |
| Disassembler.Mnemonic | src/bin/disassembler.rs:39-51 | every mnemonic is padded to five characters, so operands start in the same column |
| Disassembler.Address | src/bin/disassembler.rs:37 | an address prints as "0x" and at least four hex digits, zero-padded |
| Disassembler.Render | src/bin/disassembler.rs:38-54 | the text after the address; `Disassembler.ParseRender` states that it reads back as the same instruction and `Disassembler.RenderPlain` that it has no line break |
| Disassembler.ListingLine | src/bin/disassembler.rs:37-54 | one line of the listing; `Disassembler.ParseListingLineOf` states that it reads back as its address and instruction |
| Disassembler.Listing | src/bin/disassembler.rs:33-55 | the whole listing; `Disassembler.ParseListingOf` states that it reads back word by word |
| Disassembler.ParseAddressOf | src/bin/disassembler.rs:37 | the printed address reads back as the same number |
| Disassembler.ParseRender | src/bin/disassembler.rs:38-54 | the text printed for an instruction reads back as the same instruction |
| Disassembler.ParseAbc | src/bin/disassembler.rs:39-45 | a three-register line reads back as its operator and registers |
| Disassembler.ParseBc | src/bin/disassembler.rs:47-51 | an ALLOC or JUMP line reads back as its operator and two registers |
| Disassembler.ParseC | src/bin/disassembler.rs:48-50 | a FREE, OUT or IN line reads back as its operator and register |
| Disassembler.ParseImm | src/bin/disassembler.rs:52 | an IMM line reads back as its register and 25-bit value |
| Disassembler.OpNamedMnemonic | src/bin/disassembler.rs:39-52 | no two operators share a mnemonic: each reads back as itself |
| Disassembler.RenderPlain | src/bin/disassembler.rs:38-54 | no instruction text contains a line break |
| Disassembler.LineCharacters | src/bin/disassembler.rs:37-54 | the address has no ':' and the listing line has no line break, so the line splits uniquely |
| Disassembler.ParseListingLineOf | src/bin/disassembler.rs:37-54 | a listing line reads back as its address and instruction |
| Disassembler.ParseListingOf | src/bin/disassembler.rs:33-55 | the whole listing reads back, line by line, as the address and disassembly of each word in order |
| Disassembler.ListingRecoversWords | src/bin/disassembler.rs:33-55 | each word with a valid operator and no hidden bits is recovered exactly from the listing |
| Numerals.ValueOfDigits | src/bin/disassembler.rs:37 | the printed digits of a number read back as that number, in every base from 2 to 16 |
| Numerals.DigitsOfValue | src/bin/disassembler.rs:37 | a digit string without leading zeros is what its value prints as |
| Numerals.DigitRoundTrip | src/bin/disassembler.rs:37 | each digit character reads back as its value |
| Numerals.PadZeros | src/bin/disassembler.rs:37 | padding reaches the width, keeps the digits at the end, and adds only '0's |
| Numerals.LeadingZeros | src/bin/disassembler.rs:37 | leading zeros do not change the value of a digit string |
| Balance.Sext5Value | src/bin/balance-vm.rs:9 | the immediate is the low five bits read as a signed number from -16 to 15 |
| Balance.Sext5 | src/bin/balance-vm.rs:9 | `sext5` with its `u8` wrap-around; `Balance.Sext5Value` states that it is the signed value of the low five bits |
| Balance.Decode | src/bin/balance-vm.rs:79-86 | an instruction's immediate is the sign-extended low five bits; its fields are in range |
| Balance.DecodeCovers | src/bin/balance-vm.rs:79-86 | the opcode and the d, s1 and s2 fields together make up the whole byte |
| Balance.Write | src/bin/balance-vm.rs:92-94 | a write stores the value at the address held by the chosen destination register and changes no register |
| Balance.Read | src/bin/balance-vm.rs:88-90 | `rmem`; `Balance.ReadAfterWrite` states how it interacts with `wmem` |
| Balance.ReadAfterWrite | src/bin/balance-vm.rs:88-94 | a read after a write sees the written value exactly when the source and destination registers hold the same address |
| Balance.Combine | src/bin/balance-vm.rs:41-48 | MATH and LOGIC change only memory, never a register, the speed or ip |
| Balance.CombineEffect | src/bin/balance-vm.rs:41-48 | with distinct destination addresses, `dr[d+1]` gets f of the second sources and `dr[d]` gets g of the first sources, both read before either write; no other byte changes |
| Balance.CombineSameDestination | src/bin/balance-vm.rs:41-48 | when both destination registers hold one address, the second write wins |
| Balance.CombineStores | src/bin/balance-vm.rs:41-48 | the two results go to the two destination addresses, in that order |
| Balance.SelectedSpec | src/bin/balance-vm.rs:56-58 | the selected slots are the bit positions set in the instruction |
| Balance.SelectedOnlySet | src/bin/balance-vm.rs:56-58 | only positions whose bit is set are selected |
| Balance.SelectedAllSet | src/bin/balance-vm.rs:56-58 | every position below 6 whose bit is set is selected |
| Balance.SelectedAscending | src/bin/balance-vm.rs:56-58 | the selected positions are in increasing order |
| Balance.PhysicsHasBit5 | src/bin/balance-vm.rs:53-59 | every PHYSICS instruction has bit 5 set, so at least one slot is selected and `cd[0]` exists |
| Balance.LastSelected | src/bin/balance-vm.rs:56-59 | the last selected slot is 5 (`sr[0]`) |
| Balance.AssignEffect | src/bin/balance-vm.rs:60-70 | processing consecutive pairs gives each named slot the source named before it and keeps every other slot, when no slot is named twice after the first |
| Balance.CycleDistinct | src/bin/balance-vm.rs:59 | closing the ascending selection into a cycle names no slot twice after the first |
| Balance.RotateSelected | src/bin/balance-vm.rs:59-70 | a selection closed into a cycle rotates its sources one place |
| Balance.Physics | src/bin/balance-vm.rs:53-71 | PHYSICS changes only the registers |
| Balance.PhysicsRotation | src/bin/balance-vm.rs:53-71 | PHYSICS rotates the selected registers: each takes the old value of the one before it, and the first takes `sr[0] + imm` |
| Balance.PhysicsFrame | src/bin/balance-vm.rs:53-71 | PHYSICS keeps every register whose bit is clear, plus memory, speed and ip |
| Balance.NextIp | src/bin/balance-vm.rs:74-75 | ip moves by the signed speed around a ring of code-length instructions and stays in range |
| Balance.NextIpAgrees | src/bin/balance-vm.rs:74-75 | when ip plus the signed speed is not negative and ip is at least 256 below 2^64, the code as written and the circular step agree |
| Balance.NextIpWrapsWrongly | src/bin/balance-vm.rs:74-75 | with twelve instructions, ip 0 and speed -1, the code as written gives 3; the circular step gives 11 |
| Balance.StepWrapsAsWritten | src/bin/balance-vm.rs:74-75 | a MATH pass at ip 0 of twelve instructions with speed 0xFF moves to ip 3, as the 64-bit wrap-around of the code gives |
| Balance.Science | src/bin/balance-vm.rs:49-52 | SCIENCE sets the speed to the immediate exactly when the byte at `sr[0]` is non-zero, and changes nothing else |
| Balance.Advance | src/bin/balance-vm.rs:74-75 | after an arm that does not return, only ip changes and it stays below the code length; when ip plus the signed speed is not negative and the addition stays below 2^64, the new ip is the circular step `Balance.NextIp` |
| Balance.Step | src/bin/balance-vm.rs:38-76 | a pass crashes exactly when ip is outside the code; it stops exactly on opcodes 4..7 or on SCIENCE leaving the speed zero, keeping ip; otherwise ip stays in range; only PHYSICS touches the registers, and SCIENCE and PHYSICS leave memory alone |
| Balance.StepPhysics | src/bin/balance-vm.rs:53-71 | at a PHYSICS instruction bit 5 is set, and the pass is the rotation, then advance |
| Balance.Run | src/bin/balance-vm.rs:37-77 | a run from a valid ip never crashes, keeps the code and the machine shape, and halts on an instruction of the code |
| BalanceTest.MultiplyTest | src/bin/balance-vm.rs:97-110 | the multiplication test program, started with 3 and 3, halts after 24 passes with 9 in byte 2, with ip updated as the code is written |
| BalanceTest.AllPasses | src/bin/balance-vm.rs:7 | the first 23 passes of the test program lead to the final machine state |
| BalanceTest.NeverBelowZero | src/bin/balance-vm.rs:74-75 | before every pass of the multiplication test, ip plus the signed speed is not negative and ip is far below 2^64, so the as-written step and the circular step agree there |
| Tokens.Tokenize | src/bin/adventure.rs:27-49 | the loop emits exactly the tokens of the recursive definition of the tokenizer |
| Tokens.Lex | src/bin/adventure.rs:27-49 | the tokenizer; `Tokens.Tokenize`, `Tokens.ParenCounts` and `Tokens.RenderRoundTrip` state its meaning |
| Tokens.ParenCounts | src/bin/adventure.rs:27-49 | the tokens hold one ParOpen per '(' and one ParClose per ')' of the text |
| Tokens.IdsAreWords | src/bin/adventure.rs:36-46 | every name token is a non-empty run of characters other than parentheses and space |
| Tokens.LexWord | src/bin/adventure.rs:42 | ordinary characters only grow the pending word |
| Tokens.TrailingWord | src/bin/adventure.rs:45-47 | a word at the end of the text is a name token whatever it says, even "a", "missing" or "and" |
| Tokens.FlushedWord | src/bin/adventure.rs:32-39 | a word ended by a space or ')' is dropped if it is "a", becomes Missing if it is "missing" or "and", and is a name otherwise; a ')' then adds ParClose |
| Tokens.RenderRoundTrip | src/bin/adventure.rs:27-49 | tokenizing the text of a token sequence whose names are ordinary words gives the sequence back |
| ItemParse.DepthAppend | src/bin/adventure.rs:51-63 | the nesting depth of a concatenation is the sum of the depths |
| ItemParse.MatchUnique | src/bin/adventure.rs:51-65 | at most one position closes the first parenthesis |
| ItemParse.FindMatchingParen | src/bin/adventure.rs:51-65 | the result is the first ParClose that brings the depth back to zero; it panics if and only if there is none |
| ItemParse.MatchFrom | src/bin/adventure.rs:53-63 | the scan from position i with the depth of the tokens before it: a result is a position where the first parenthesis closes, and a panic means no position from i on closes it |
| ItemParse.MatchIsFirstBalance | src/bin/adventure.rs:51-65 | after a leading '(', a match is the first ParClose where the depth returns to zero, the assert having held before it |
| ItemParse.PositiveBeforeBalance | src/bin/adventure.rs:51-63 | after a leading '(', the depth stays positive until the first return to zero |
| ItemParse.Thing | src/bin/adventure.rs:90-104 | a thing uses at least one and at most all tokens; a parenthesised thing ends at its matching ')'; empty input, Missing or ')' first is a panic |
| ItemParse.Children | src/bin/adventure.rs:107-115 | the loop keeps the name and appends parts after those already found |
| ItemParse.ChildrenStep | src/bin/adventure.rs:108-113 | one iteration consumes Missing and one thing, and appends that thing |
| ItemParse.BalancedWrap | src/bin/adventure.rs:51-65 | a balanced sequence in parentheses is balanced, and its ')' matches its '(' whatever follows |
| ItemParse.ItemTokensBalanced | src/bin/adventure.rs:72-74 | the token form of every item has balanced parentheses |
| ItemParse.ThingRoundTrip | src/bin/adventure.rs:90-104 | a thing's tokens parse back to that thing, using exactly those tokens, whatever follows |
| ItemParse.ItemRoundTrip | src/bin/adventure.rs:106-116 | the token form of an item parses back to the same item |
| ItemParse.ParseItem | src/bin/adventure.rs:106-116 | `Item::item`; `ItemParse.ItemRoundTrip` states that it inverts the token form of an item |
| ItemParse.ChildrenRoundTrip | src/bin/adventure.rs:107-115 | the missing-part tokens of an item parse back to its remaining parts |
| Adventure.JoinSplit | src/bin/adventure.rs:77-78 | joining the pieces of a split with the separator gives the text back |
| Adventure.SplitJoin | src/bin/adventure.rs:77-78 | splitting a join of separator-free pieces gives the pieces back |
| Adventure.FromStrRoundTrip | src/bin/adventure.rs:76-88 | a line "name subname.description" reads back as that name, sub-name and list of missing parts |
| Adventure.FromStr | src/bin/adventure.rs:76-88 | `Item::from_str`; `Adventure.FromStrRoundTrip` states what it reads back |
| Adventure.NameStrWords | src/bin/adventure.rs:126-131 | the last word of the printed name is the name, and the word before it, if any, is the sub-name |
| Adventure.NameStr | src/bin/adventure.rs:126-131 | `name_str`; `Adventure.NameStrWords` states that the name and sub-name can be read back from it |
| Adventure.Take | src/bin/adventure.rs:118-120 | the command `take` followed by the printed name of `Adventure.NameStr` |
| Adventure.Incinerate | src/bin/adventure.rs:122-124 | the command `incinerate` followed by the printed name of `Adventure.NameStr` |
| Adventure.HandleItem | src/bin/adventure.rs:183-192 | one item: its `take` comes first and the earlier commands stay; an irrelevant item adds only its `incinerate` and changes neither the inventory nor the maximum; a relevant item grows the inventory by its name, raises the maximum to the grown size if larger, issues exactly the commands `combine` gives for the grown inventory and leaves the inventory `combine` leaves |
| Adventure.FindCommands | src/bin/adventure.rs:179-194 | no items give no commands, and otherwise the first command is the take of the first item; every item is taken, in order; each irrelevant item is incinerated right after it is taken and never enters the inventory; each relevant one is added to the inventory that the earlier combines left, and the commands between its take and the next take are exactly those `combine` issues for that inventory; the inventory holds only relevant names seen so far; the reported maximum is the largest inventory size after an insertion, and at most the number of relevant names |
| Adventure.OneBurnedExact | src/bin/adventure.rs:179-194 | for one irrelevant item, the commands are exactly its take followed by its incineration |
| Adventure.TwoKeptPeak | src/bin/adventure.rs:189-190 | with two relevant items of different names and a combine that does nothing, the inventories are {A} and {A, B} and the reported maximum is 2 |
| Adventure.TakenStep | src/bin/adventure.rs:183-184 | taking the next item extends the in-order record of takes |
| Adventure.BurnedStep | src/bin/adventure.rs:185-188 | incinerating an irrelevant item right after taking it extends the record of incinerations |
| Adventure.StockedAdd | src/bin/adventure.rs:189-190 | adding a relevant name keeps the inventory within the relevant names and updates the maximum |
| Adventure.StockedSkip | src/bin/adventure.rs:185-188 | an irrelevant item leaves the inventory bounds and the maximum as they were |
| Adventure.ActedStep | src/bin/adventure.rs:189-191 | one more item keeps the record of what each item did to the inventory, and the next item finds the inventory `combine` left |
| Adventure.PeakStep | src/bin/adventure.rs:190 | raising the maximum to the newest inventory size keeps every inventory within it |

## Left out

- `produce` (src/bin/adventure.rs:139-161): its result depends on the
  iteration order of `HashSet`, which is unspecified, and it has no
  termination measure, since it recurses on item names that may form a
  cycle. The combination set and the relevant set it computes are
  therefore parameters of `Adventure.FindCommands`.
- `try_combine` (src/bin/adventure.rs:163-177): also depends on
  `HashSet` order. It is the parameter `combine`. Its commands are
  arbitrary, and the only assumption is the one the source guarantees:
  it only removes names from the inventory.
- `Item`'s `PartialEq` (src/bin/adventure.rs:13-22) is used only by
  `produce`.
- `main` of the adventure solver: file reading, line splitting and
  printing.
- `main` of the disassembler and `OutputWriter`: argument handling and
  buffered output. The listing text itself is modelled.
- `impl Display for BalanceVM` (src/bin/balance-vm.rs:20-34): a debugging
  dump.
- `codex_umz`, `sandmark`, `step_2` and `main` of src/main.rs: these load
  fixed files and call `run_cpu`. The file contents are not part of this
  model.
- `read_program`'s `fs::read` and its I/O error: the loader starts from
  the bytes.
- `OutputWriter::print` and `flush`: output is the list of `Executed`
  events.
- `InputReader::next_line`: the input lines are a list. When it is used
  up the session ends with `InputExhausted`, where the real reader would
  block or fail.
- Arithmetic overflow panics of debug builds are not modelled; the
  wrapping of release builds is. This covers `u32` `+` and `*` in
  src/cpu.rs:41-42, `u8` `+`/`-` in src/bin/balance-vm.rs:9, 42-43 and 55,
  and `heap.len() as u32 - 1`.
- Cpu.Execute: `CPU::execute` loops without bound; the model stops after
  `fuel` steps with `OutOfFuel`. `Driver.Run` and `Balance.Run` are
  bounded the same way. `Cpu.ExecuteFuelMonotone` shows that extra fuel
  never changes a finished result.
- Cpu.Alloc: when 2^32 segments exist and the free list is empty, the
  handle `heap.len() as u32 - 1` wraps. The contract states only that
  the heap grows; it does not say which segment the handle names.
- `Output(char)` of src/cpu.rs:11 holds `reg[c] as u8 as char`; the model
  keeps the byte, which is the same value.
- Adventure.FromStr has no contract of its own. Its meaning is stated by
  `Adventure.FromStrRoundTrip` for lines built from a name, a sub-name
  and an item description. Lines with more than two words before the
  '.', or a second '.', are not characterised.

## Findings

| source | as written | input that shows it | evidently intended | confidence | as-written member | corrected member |
|---|---|---|---|---|---|---|
| src/bin/balance-vm.rs:74-75 | `ip += is as i8 as usize` wraps modulo 2^64, and only then is the result reduced modulo the code length | 12 instructions, ip 0, speed 0xFF (-1): 2^64 - 1 mod 12 is 3, so ip becomes 3 | ip moves by the signed speed around the ring of instructions, here to 11 | not executed | Balance.NextIpWrapsWrongly (on `Balance.NextIpAsWritten`), Balance.StepWrapsAsWritten (on `Balance.Step`) | Balance.NextIp, Balance.NextIpAgrees |

`Balance.Advance`, and with it `Balance.Step`, `Balance.Run` and
`BalanceTest.MultiplyTest`, follow the code as written
(`Balance.NextIpAsWritten`). The contract of `Balance.Advance` states
that this is the corrected step `Balance.NextIp` whenever ip plus the
signed speed is not negative and stays below 2^64; `Balance.NextIpAgrees`
proves the same for the two functions alone. `BalanceTest.NeverBelowZero`
shows that every pass of the multiplication test meets that condition, so
each of its passes takes the corrected step as well.
