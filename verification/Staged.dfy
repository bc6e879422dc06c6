/** Staged arguments: the values ride behind the program, and a prologue slices each of them
    out of the whole. Its offsets contain the program's length, which contains the prologue's. */
module Staged {
  import opened Arith
  import opened Bytes
  import opened Encode
  import opened Linker

  const MAX_COMPOSITE_BYTES := 65535

  const READ_VALUE: byte := 0x50
  const CAST_BE: byte := 0x54
  const SLICE: byte := 0x95
  const CALLDATA: byte := 0xa5
  const WRITE_VALUE: byte := 0xc1
  const BYTE_1: byte := 0x01
  const BYTE_2: byte := 0x02

  datatype Slot = Slot(scalar: bool, offset: nat, length: nat)

  datatype Layout = Layout(slots: seq<Slot>, byteLength: nat) | Unsupported(arg: nat)

  predicate Stageable(a: Arg) {
    a.Num? || a.Blob?
  }

  function SlotSize(a: Arg): nat
    requires Stageable(a)
  {
    if a.Num? then 32 else |a.data|
  }

  /** Back to back in argument order: a word for a number, the bytes themselves for bytes. */
  function SlotsFrom(args: seq<Arg>, offset: nat): seq<Slot>
    requires forall i | 0 <= i < |args| :: Stageable(args[i])
  {
    if args == [] then []
    else [Slot(args[0].Num?, offset, SlotSize(args[0]))] + SlotsFrom(args[1..], offset + SlotSize(args[0]))
  }

  function TotalSize(args: seq<Arg>): nat
    requires forall i | 0 <= i < |args| :: Stageable(args[i])
  {
    if args == [] then 0 else SlotSize(args[0]) + TotalSize(args[1..])
  }

  lemma {:induction false} SlotsAppend(args: seq<Arg>, a: Arg, offset: nat)
    requires (forall k | 0 <= k < |args| :: Stageable(args[k])) && Stageable(a)
    ensures SlotsFrom(args + [a], offset) ==
            SlotsFrom(args, offset) + [Slot(a.Num?, offset + TotalSize(args), SlotSize(a))]
    ensures TotalSize(args + [a]) == TotalSize(args) + SlotSize(a)
  {
    if args == [] {
      assert args + [a] == [a] && [a][1..] == [];
    } else {
      assert (args + [a])[1..] == args[1..] + [a];
      SlotsAppend(args[1..], a, offset + SlotSize(args[0]));
    }
  }

  predicate AllStageable(args: seq<Arg>) {
    forall i | 0 <= i < |args| :: Stageable(args[i])
  }

  /** The running-offset loop: the first list or object stops it. */
  method BuildArgsLayout(args: seq<Arg>) returns (r: Layout)
    ensures r.Unsupported? <==> !AllStageable(args)
    ensures r.Unsupported? ==> r.arg < |args| && !Stageable(args[r.arg]) && AllStageable(args[..r.arg])
    ensures r.Layout? ==> r.slots == SlotsFrom(args, 0) && r.byteLength == TotalSize(args)
  {
    var slots: seq<Slot> := [];
    var offset := 0;
    var i := 0;
    while i < |args|
      invariant 0 <= i <= |args| && forall k | 0 <= k < i :: Stageable(args[k])
      invariant slots == SlotsFrom(args[..i], 0) && offset == TotalSize(args[..i])
    {
      if !Stageable(args[i]) {
        return Unsupported(i);
      }
      SlotsAppend(args[..i], args[i], 0);
      assert args[..i] + [args[i]] == args[..i + 1];
      slots := slots + [Slot(args[i].Num?, offset, SlotSize(args[i]))];
      offset := offset + SlotSize(args[i]);
      i := i + 1;
    }
    assert args[..i] == args;
    return Layout(slots, offset);
  }

  // ----- the prologue -----

  function SlotReadLen(s: Slot): nat {
    2 + 3 + (if s.length <= 0xff then 2 else 3) + 1 + (if s.scalar then 1 else 0)
  }

  function ReadsLen(slots: seq<Slot>): nat {
    if slots == [] then 0 else SlotReadLen(slots[0]) + ReadsLen(slots[1..])
  }

  function StagedPrologueLen(slots: seq<Slot>): nat {
    if slots == [] then 0 else 3 + ReadsLen(slots)
  }

  function Low(n: nat): byte {
    n % 256
  }

  function PushLength(n: nat): seq<byte> {
    if n <= 0xff then [BYTE_1, n] else [BYTE_2, Low(n / 256), Low(n)]
  }

  /** Fetch the whole, push where the slot starts and how long it ins, slice. */
  function SlotRead(s: Slot, programLength: nat): seq<byte> {
    var offset := programLength + s.offset;
    [READ_VALUE, 0] + [BYTE_2, Low(offset / 256), Low(offset)] + PushLength(s.length) + [SLICE]
    + (if s.scalar then [CAST_BE] else [])
  }

  function SlotReads(slots: seq<Slot>, programLength: nat): seq<byte> {
    if slots == [] then [] else SlotRead(slots[0], programLength) + SlotReads(slots[1..], programLength)
  }

  function Prologue(slots: seq<Slot>, programLength: nat): seq<byte> {
    if slots == [] then [] else [CALLDATA, WRITE_VALUE, 0] + SlotReads(slots, programLength)
  }

  lemma {:induction false} ReadsLength(slots: seq<Slot>, programLength: nat)
    ensures |SlotReads(slots, programLength)| == ReadsLen(slots)
  {
    if slots != [] {
      ReadsLength(slots[1..], programLength);
    }
  }

  /** The prologue is as long as announced, whatever length it is told the program has. */
  lemma PrologueLength(slots: seq<Slot>, programLength: nat)
    ensures |Prologue(slots, programLength)| == StagedPrologueLen(slots)
  {
    ReadsLength(slots, programLength);
  }

  // ----- the machine -----

  /** The instructions a prologue uses. */
  datatype Instr = CallData | Write(slot: byte) | Read(slot: byte) | Byte1(n: byte) | Byte2(hi: byte, lo: byte) | Slice | CastBe

  function Code(i: Instr): seq<byte> {
    match i
    case CallData => [CALLDATA]
    case Write(slot) => [WRITE_VALUE, slot]
    case Read(slot) => [READ_VALUE, slot]
    case Byte1(n) => [BYTE_1, n]
    case Byte2(hi, lo) => [BYTE_2, hi, lo]
    case Slice => [SLICE]
    case CastBe => [CAST_BE]
  }

  function CodeAll(ins: seq<Instr>): seq<byte> {
    if ins == [] then [] else Code(ins[0]) + CodeAll(ins[1..])
  }

  /** The first instruction of some code. */
  function Fetch(code: seq<byte>): Option<Instr> {
    if code == [] then None
    else if code[0] == CALLDATA then Some(CallData)
    else if code[0] == SLICE then Some(Slice)
    else if code[0] == CAST_BE then Some(CastBe)
    else if |code| < 2 then None
    else if code[0] == WRITE_VALUE then Some(Write(code[1]))
    else if code[0] == READ_VALUE then Some(Read(code[1]))
    else if code[0] == BYTE_1 then Some(Byte1(code[1]))
    else if |code| >= 3 && code[0] == BYTE_2 then Some(Byte2(code[1], code[2]))
    else None
  }

  function Disassemble(code: seq<byte>): Option<seq<Instr>>
    decreases |code|
  {
    if code == [] then Some([])
    else
      match Fetch(code)
      case None => None
      case Some(i) =>
        match Disassemble(code[|Code(i)|..])
        case Some(ins) => Some([i] + ins)
        case None => None
  }

  lemma {:induction false} Disassembles(ins: seq<Instr>)
    ensures Disassemble(CodeAll(ins)) == Some(ins)
  {
    if ins != [] {
      FetchFirst(ins[0], CodeAll(ins[1..]));
      Disassembles(ins[1..]);
      assert [ins[0]] + ins[1..] == ins;
    }
  }

  lemma FetchFirst(i: Instr, rest: seq<byte>)
    ensures Fetch(Code(i) + rest) == Some(i) && (Code(i) + rest)[|Code(i)|..] == rest
  {
  }

  lemma {:induction false} CodeAppend(a: seq<Instr>, b: seq<Instr>)
    ensures CodeAll(a + b) == CodeAll(a) + CodeAll(b)
  {
    if a == [] {
      assert a + b == b;
    } else {
      assert (a + b)[1..] == a[1..] + b;
      CodeAppend(a[1..], b);
    }
  }

  datatype Cell = Number(n: nat) | Data(bytes: seq<byte>)

  datatype Machine = Machine(stack: seq<Cell>, values: map<nat, Cell>)

  function Push(m: Machine, c: Cell): Machine {
    m.(stack := m.stack + [c])
  }

  function Top(m: Machine, k: nat): Cell
    requires k < |m.stack|
  {
    m.stack[|m.stack| - 1 - k]
  }

  function Drop(m: Machine, k: nat): Machine
    requires k <= |m.stack|
  {
    m.(stack := m.stack[..|m.stack| - k])
  }

  predicate Sliceable(d: Cell, offset: Cell, length: Cell) {
    d.Data? && offset.Number? && length.Number? && offset.n + length.n <= |d.bytes|
  }

  function Step(i: Instr, data: seq<byte>, m: Machine): Option<Machine> {
    match i
    case CallData => Some(Push(m, Data(data)))
    case Write(slot) =>
      if |m.stack| >= 1 then Some(Drop(m, 1).(values := m.values[slot as nat := Top(m, 0)])) else None
    case Read(slot) => if (slot as nat) in m.values then Some(Push(m, m.values[slot as nat])) else None
    case Byte1(n) => Some(Push(m, Number(n)))
    case Byte2(hi, lo) => Some(Push(m, Number(256 * hi + lo)))
    case Slice =>
      if |m.stack| >= 3 && Sliceable(Top(m, 2), Top(m, 1), Top(m, 0)) then
        var at, n := Top(m, 1).n, Top(m, 0).n;
        Some(Push(Drop(m, 3), Data(Top(m, 2).bytes[at..at + n])))
      else None
    case CastBe =>
      if |m.stack| >= 1 && Top(m, 0).Data? then Some(Push(Drop(m, 1), Number(FromBE(Top(m, 0).bytes)))) else None
  }

  function RunAll(ins: seq<Instr>, data: seq<byte>, m: Machine): Option<Machine> {
    if ins == [] then Some(m)
    else
      match Step(ins[0], data, m)
      case Some(m1) => RunAll(ins[1..], data, m1)
      case None => None
  }

  /** Running code on call data. */
  function Run(code: seq<byte>, data: seq<byte>, m: Machine): Option<Machine> {
    match Disassemble(code)
    case Some(ins) => RunAll(ins, data, m)
    case None => None
  }

  lemma {:induction false} RunAppend(a: seq<Instr>, b: seq<Instr>, data: seq<byte>, m: Machine)
    ensures RunAll(a + b, data, m) == match RunAll(a, data, m)
                                      case Some(m1) => RunAll(b, data, m1)
                                      case None => None
    decreases |a|
  {
    if a == [] {
      assert a + b == b;
    } else {
      assert (a + b)[1..] == a[1..] + b;
      var m1 := Step(a[0], data, m);
      if m1.Some? {
        RunAppend(a[1..], b, data, m1.value);
      }
    }
  }

  /** What a slot stands for in a payload. */
  function CellAt(s: Slot, payload: seq<byte>): Cell
    requires s.offset + s.length <= |payload|
  {
    var b := payload[s.offset..s.offset + s.length];
    if s.scalar then Number(FromBE(b)) else Data(b)
  }

  function CellsAt(slots: seq<Slot>, payload: seq<byte>): seq<Cell>
    requires Inside(slots, payload)
  {
    if slots == [] then [] else [CellAt(slots[0], payload)] + CellsAt(slots[1..], payload)
  }

  predicate Inside(slots: seq<Slot>, payload: seq<byte>) {
    forall i | 0 <= i < |slots| :: slots[i].offset + slots[i].length <= |payload|
  }

  predicate Within(slots: seq<Slot>, programLength: nat, size: nat) {
    forall i | 0 <= i < |slots| :: programLength + slots[i].offset + slots[i].length <= size
  }

  /** The same in the whole, behind the program. */
  function CellIn(s: Slot, programLength: nat, data: seq<byte>): Cell
    requires programLength + s.offset + s.length <= |data|
  {
    var b := data[programLength + s.offset..programLength + s.offset + s.length];
    if s.scalar then Number(FromBE(b)) else Data(b)
  }

  function CellsIn(slots: seq<Slot>, programLength: nat, data: seq<byte>): seq<Cell>
    requires Within(slots, programLength, |data|)
  {
    if slots == [] then [] else [CellIn(slots[0], programLength, data)] + CellsIn(slots[1..], programLength, data)
  }

  function PushInstr(n: nat): Instr {
    if n <= 0xff then Byte1(n) else Byte2(Low(n / 256), Low(n))
  }

  function SliceInstrs(offset: nat, length: nat): seq<Instr> {
    [Read(0), Byte2(Low(offset / 256), Low(offset)), PushInstr(length), Slice]
  }

  function CastInstrs(scalar: bool): seq<Instr> {
    if scalar then [CastBe] else []
  }

  function SlotInstrs(s: Slot, programLength: nat): seq<Instr> {
    SliceInstrs(programLength + s.offset, s.length) + CastInstrs(s.scalar)
  }

  function ReadsInstrs(slots: seq<Slot>, programLength: nat): seq<Instr> {
    if slots == [] then [] else SlotInstrs(slots[0], programLength) + ReadsInstrs(slots[1..], programLength)
  }

  lemma CodeOfTwo(a: Instr, b: Instr)
    ensures CodeAll([a, b]) == Code(a) + Code(b)
  {
    assert [a, b][1..] == [b] && [b][1..] == [];
    assert CodeAll([b]) == Code(b) + CodeAll([]);
  }

  lemma CodeOfFour(a: Instr, b: Instr, c: Instr, d: Instr)
    ensures CodeAll([a, b, c, d]) == Code(a) + Code(b) + Code(c) + Code(d)
  {
    CodeOfTwo(a, b);
    CodeOfTwo(c, d);
    CodeAppend([a, b], [c, d]);
    assert [a, b] + [c, d] == [a, b, c, d];
  }

  lemma SlotCode(s: Slot, programLength: nat)
    ensures CodeAll(SlotInstrs(s, programLength)) == SlotRead(s, programLength)
  {
    var offset := programLength + s.offset;
    CodeOfFour(Read(0), Byte2(Low(offset / 256), Low(offset)), PushInstr(s.length), Slice);
    CodeAppend(SliceInstrs(offset, s.length), CastInstrs(s.scalar));
    assert [CastBe][1..] == [] && CodeAll([CastBe]) == [CAST_BE] + [];
  }

  lemma {:induction false} ReadsCode(slots: seq<Slot>, programLength: nat)
    ensures CodeAll(ReadsInstrs(slots, programLength)) == SlotReads(slots, programLength)
  {
    if slots != [] {
      SlotCode(slots[0], programLength);
      CodeAppend(SlotInstrs(slots[0], programLength), ReadsInstrs(slots[1..], programLength));
      ReadsCode(slots[1..], programLength);
    }
  }

  lemma RunFour(a: Instr, b: Instr, c: Instr, d: Instr, data: seq<byte>, m: Machine, m1: Machine, m2: Machine, m3: Machine)
    requires Step(a, data, m) == Some(m1) && Step(b, data, m1) == Some(m2) && Step(c, data, m2) == Some(m3)
    ensures RunAll([a, b, c, d], data, m) == Step(d, data, m3)
  {
    assert [a, b, c, d][1..] == [b, c, d] && [b, c, d][1..] == [c, d] && [c, d][1..] == [d] && [d][1..] == [];
    assert RunAll([d], data, m3) == Step(d, data, m3);
    assert RunAll([c, d], data, m2) == RunAll([d], data, m3);
    assert RunAll([b, c, d], data, m1) == RunAll([c, d], data, m2);
  }

  lemma TwoByteNumber(n: nat)
    requires n <= 0xffff
    ensures 256 * Low(n / 256) as nat + Low(n) == n
  {
  }

  /** One slot's code leaves exactly its value, and nothing else changes. */
  lemma SlotReadRuns(s: Slot, programLength: nat, data: seq<byte>, m: Machine)
    requires programLength + s.offset + s.length <= |data| <= MAX_COMPOSITE_BYTES
    requires 0 in m.values && m.values[0] == Data(data)
    ensures RunAll(SlotInstrs(s, programLength), data, m) == Some(Push(m, CellIn(s, programLength, data)))
  {
    var offset := programLength + s.offset;
    var taken := data[offset..offset + s.length];
    SliceRuns(offset, s.length, data, m);
    CastLast(s.scalar, taken, data, m);
    InTurn(SliceInstrs(offset, s.length), CastInstrs(s.scalar), data, m, Push(m, Data(taken)),
           Push(m, CellIn(s, programLength, data)));
  }

  lemma SliceRuns(offset: nat, length: nat, data: seq<byte>, m: Machine)
    requires offset + length <= |data| <= MAX_COMPOSITE_BYTES
    requires 0 in m.values && m.values[0] == Data(data)
    ensures RunAll(SliceInstrs(offset, length), data, m) == Some(Push(m, Data(data[offset..offset + length])))
  {
    TwoByteNumber(offset);
    TwoByteNumber(length);
    SliceAt(Read(0), Byte2(Low(offset / 256), Low(offset)), PushInstr(length), offset, length, data, m);
  }

  lemma InTurn(a: seq<Instr>, b: seq<Instr>, data: seq<byte>, m: Machine, m1: Machine, m2: Machine)
    requires RunAll(a, data, m) == Some(m1) && RunAll(b, data, m1) == Some(m2)
    ensures RunAll(a + b, data, m) == Some(m2)
  {
    RunAppend(a, b, data, m);
  }

  ghost predicate Pushes(i: Instr, c: Cell, data: seq<byte>, m: Machine) {
    Step(i, data, m) == Some(Push(m, c))
  }

  lemma SliceAt(a: Instr, b: Instr, c: Instr, offset: nat, length: nat, data: seq<byte>, m: Machine)
    requires offset + length <= |data| && Pushes(a, Data(data), data, m)
    requires Pushes(b, Number(offset), data, Push(m, Data(data)))
    requires Pushes(c, Number(length), data, Push(Push(m, Data(data)), Number(offset)))
    ensures RunAll([a, b, c, Slice], data, m) == Some(Push(m, Data(data[offset..offset + length])))
  {
    SliceStep(offset, length, data, m);
    var m1 := Push(m, Data(data));
    var m2 := Push(m1, Number(offset));
    RunFour(a, b, c, Slice, data, m, m1, m2, Push(m2, Number(length)));
  }

  lemma SliceStep(offset: nat, length: nat, data: seq<byte>, m: Machine)
    requires offset + length <= |data|
    ensures Step(Slice, data, Push(Push(Push(m, Data(data)), Number(offset)), Number(length))) ==
            Some(Push(m, Data(data[offset..offset + length])))
  {
    assert Drop(Push(Push(Push(m, Data(data)), Number(offset)), Number(length)), 3) == m;
  }

  lemma CastLast(scalar: bool, b: seq<byte>, data: seq<byte>, m: Machine)
    ensures RunAll(CastInstrs(scalar), data, Push(m, Data(b))) ==
            Some(Push(m, if scalar then Number(FromBE(b)) else Data(b)))
  {
    assert [CastBe][1..] == [] && Drop(Push(m, Data(b)), 1) == m;
  }

  lemma {:induction false} SlotReadsRun(slots: seq<Slot>, programLength: nat, data: seq<byte>, m: Machine)
    requires Within(slots, programLength, |data|) && |data| <= MAX_COMPOSITE_BYTES
    requires 0 in m.values && m.values[0] == Data(data)
    ensures RunAll(ReadsInstrs(slots, programLength), data, m) ==
            Some(m.(stack := m.stack + CellsIn(slots, programLength, data)))
  {
    if slots == [] {
      assert m.stack + [] == m.stack;
    } else {
      var c, rest := CellIn(slots[0], programLength, data), CellsIn(slots[1..], programLength, data);
      SlotReadRuns(slots[0], programLength, data, m);
      SlotReadsRun(slots[1..], programLength, data, Push(m, c));
      StackMore(m, c, rest);
      InTurn(SlotInstrs(slots[0], programLength), ReadsInstrs(slots[1..], programLength), data, m, Push(m, c),
             m.(stack := m.stack + ([c] + rest)));
    }
  }

  lemma StackMore(m: Machine, c: Cell, rest: seq<Cell>)
    ensures Push(m, c).(stack := Push(m, c).stack + rest) == m.(stack := m.stack + ([c] + rest))
  {
    assert m.stack + [c] + rest == m.stack + ([c] + rest);
  }

  lemma EntryRuns(data: seq<byte>, m: Machine)
    ensures RunAll([CallData, Write(0)], data, m) == Some(m.(values := m.values[0 := Data(data)]))
  {
    assert [CallData, Write(0)][1..] == [Write(0)] && [Write(0)][1..] == [];
    assert Drop(Push(m, Data(data)), 1) == m;
    assert RunAll([Write(0)], data, Push(m, Data(data))) == Some(m.(values := m.values[0 := Data(data)]));
  }

  lemma ProloguesCode(slots: seq<Slot>, programLength: nat)
    requires slots != []
    ensures Disassemble(Prologue(slots, programLength)) == Some([CallData, Write(0)] + ReadsInstrs(slots, programLength))
  {
    var entry := [CallData, Write(0)];
    CodeOfTwo(CallData, Write(0));
    ReadsCode(slots, programLength);
    CodeAppend(entry, ReadsInstrs(slots, programLength));
    Disassembles(entry + ReadsInstrs(slots, programLength));
  }

  lemma PrologueRunsOn(slots: seq<Slot>, programLength: nat, data: seq<byte>, m: Machine)
    requires Within(slots, programLength, |data|) && |data| <= MAX_COMPOSITE_BYTES
    ensures var r := Run(Prologue(slots, programLength), data, m);
            r.Some? && r.value.stack == m.stack + CellsIn(slots, programLength, data)
  {
    if slots == [] {
      assert m.stack + [] == m.stack;
    } else {
      var m1 := m.(values := m.values[0 := Data(data)]);
      ProloguesCode(slots, programLength);
      EntryRuns(data, m);
      SlotReadsRun(slots, programLength, data, m1);
      InTurn([CallData, Write(0)], ReadsInstrs(slots, programLength), data, m, m1,
             m1.(stack := m.stack + CellsIn(slots, programLength, data)));
    }
  }

  lemma {:induction false} CellsMove(slots: seq<Slot>, program: seq<byte>, payload: seq<byte>)
    requires Inside(slots, payload)
    ensures Within(slots, |program|, |program + payload|)
    ensures CellsIn(slots, |program|, program + payload) == CellsAt(slots, payload)
  {
    if slots != [] {
      var s, offset := slots[0], |program| + slots[0].offset;
      assert (program + payload)[offset..offset + s.length] == payload[s.offset..s.offset + s.length];
      CellsMove(slots[1..], program, payload);
    }
  }

  /** Run on the program and its payload, the prologue pushes each slot's value in order, one
      cell per argument, for every payload. */
  lemma PrologueRuns(slots: seq<Slot>, program: seq<byte>, payload: seq<byte>, m: Machine)
    requires Inside(slots, payload) && |program| + |payload| <= MAX_COMPOSITE_BYTES
    ensures var r := Run(Prologue(slots, |program|), program + payload, m);
            r.Some? && r.value.stack == m.stack + CellsAt(slots, payload)
    ensures |CellsAt(slots, payload)| == |slots|
  {
    CellCount(slots, payload);
    CellsMove(slots, program, payload);
    PrologueRunsOn(slots, |program|, program + payload, m);
  }

  lemma {:induction false} CellCount(slots: seq<Slot>, payload: seq<byte>)
    requires Inside(slots, payload)
    ensures |CellsAt(slots, payload)| == |slots|
  {
    if slots != [] {
      CellCount(slots[1..], payload);
    }
  }

  // ----- the round trip -----

  /** The payload for the arguments: words for numbers, bytes as they are. */
  function Payload(args: seq<Arg>): seq<byte>
    requires forall i | 0 <= i < |args| :: Stageable(args[i])
  {
    if args == [] then [] else PayloadOf(args[0]) + Payload(args[1..])
  }

  function PayloadOf(a: Arg): (b: seq<byte>)
    requires Stageable(a)
    ensures |b| == SlotSize(a)
  {
    if a.Num? then ToBE(Abs(a.v), 32) else a.data
  }

  function ValueOf(a: Arg): Cell
    requires Stageable(a)
  {
    if a.Num? then Number(Abs(a.v)) else Data(a.data)
  }

  function ValuesOf(args: seq<Arg>): seq<Cell>
    requires forall i | 0 <= i < |args| :: Stageable(args[i])
  {
    if args == [] then [] else [ValueOf(args[0])] + ValuesOf(args[1..])
  }

  /** Numbers are words. */
  predicate Word(a: Arg) {
    a.Blob? || (a.Num? && 0 <= a.v < Pow256(32))
  }

  lemma {:induction false} PayloadSlots(args: seq<Arg>, before: seq<byte>)
    requires forall i | 0 <= i < |args| :: Stageable(args[i]) && Word(args[i])
    ensures var payload := before + Payload(args);
            && |payload| == |before| + TotalSize(args)
            && Inside(SlotsFrom(args, |before|), payload)
            && CellsAt(SlotsFrom(args, |before|), payload) == ValuesOf(args)
  {
    if args != [] {
      var first := PayloadOf(args[0]);
      var payload := before + Payload(args);
      assert payload == (before + first) + Payload(args[1..]);
      PayloadSlots(args[1..], before + first);
      var slots := SlotsFrom(args, |before|);
      assert slots[1..] == SlotsFrom(args[1..], |before + first|);
      assert payload[|before|..|before| + |first|] == first;
      if args[0].Num? {
        RoundTrip(args[0].v, 32);
      }
      assert CellAt(slots[0], payload) == ValueOf(args[0]);
      assert forall i | 0 <= i < |slots| :: i == 0 || slots[i] == slots[1..][i - 1];
    }
  }

  // ----- the whole program -----

  /** The length of the staged program, known before its prologue is. */
  function StagedLength(slots: seq<Slot>, main: Body, helpers: seq<Body>): nat {
    StagedPrologueLen(slots) + |main.code| + 1 + Sizes(helpers)
  }

  function LinkStaged(slots: seq<Slot>, main: Body, helpers: seq<Body>): Linked
    requires Fits(main) && forall h | h in helpers :: Fits(h)
  {
    Link(Prologue(slots, StagedLength(slots, main, helpers)), main, helpers, true)
  }

  lemma {:induction false} JoinedLength(helpers: seq<Body>, bodies: seq<seq<byte>>)
    requires |bodies| == |helpers| && forall k | 0 <= k < |helpers| :: |bodies[k]| == |helpers[k].code|
    ensures |Joined(bodies)| == Sizes(helpers)
  {
    if helpers != [] {
      JoinedLength(helpers[1..], bodies[1..]);
    }
  }

  lemma {:induction false} PatchKeepsLength(b: Body, offsets: Offsets, frame: nat, mainIndex: int)
    requires Fits(b) && Patch(b, offsets, frame, mainIndex).Linked?
    ensures |Patch(b, offsets, frame, mainIndex).code| == |b.code|
  {
    PatchCallsLength(b.code, b.calls, offsets, b.prefix, mainIndex);
    PatchRefsLength(PatchCalls(b.code, b.calls, offsets, b.prefix, mainIndex).code, b.refs, b.params, frame, b.prefix);
  }

  lemma {:induction false} PatchRefsLength(code: seq<byte>, refs: seq<ParamRef>, params: nat, frame: nat, shift: nat)
    requires forall r | r in refs :: r.pos + shift < |code|
    requires PatchRefs(code, refs, params, frame, shift).Linked?
    ensures |PatchRefs(code, refs, params, frame, shift).code| == |code|
    decreases refs
  {
    if refs != [] {
      PatchRefsLength(code[refs[0].pos + shift := Sdup(StackPos(refs[0], params, frame))], refs[1..], params, frame, shift);
    }
  }

  /** The program is as long as its prologue was told. */
  lemma StagedLengthExact(slots: seq<Slot>, main: Body, helpers: seq<Body>)
    requires Fits(main) && (forall h | h in helpers :: Fits(h)) && LinkStaged(slots, main, helpers).Linked?
    ensures |LinkStaged(slots, main, helpers).code| == StagedLength(slots, main, helpers)
  {
    var l := StagedLength(slots, main, helpers);
    var prologue := Prologue(slots, l);
    PrologueLength(slots, l);
    var offsets := OffsetsOf(helpers, |helpers|, BaseOf(prologue, main, true));
    PatchKeepsLength(main, offsets, 0, |helpers|);
    var bodies := PatchHelpers(helpers, offsets).1;
    forall k | 0 <= k < |helpers|
      ensures |bodies| == |helpers| && |bodies[k]| == |helpers[k].code|
    {
      HelpersPatched(helpers, offsets, k);
      PatchKeepsLength(helpers[k], offsets, 1, -1);
    }
    if helpers != [] {
      HelpersPatched(helpers, offsets, 0);
    }
    JoinedLength(helpers, bodies);
  }

  /** End to end: the linked program begins with a prologue that, run on the program and the
      arguments behind it, pushes the arguments back in order. */
  lemma StagedArgumentsRoundTrip(args: seq<Arg>, main: Body, helpers: seq<Body>, m: Machine)
    requires (forall i | 0 <= i < |args| :: Stageable(args[i]) && Word(args[i])) && Fits(main) && forall h | h in helpers :: Fits(h)
    requires var slots := SlotsFrom(args, 0);
             && LinkStaged(slots, main, helpers).Linked?
             && StagedLength(slots, main, helpers) + TotalSize(args) <= MAX_COMPOSITE_BYTES
    ensures var slots := SlotsFrom(args, 0);
            var program := LinkStaged(slots, main, helpers).code;
            && Prologue(slots, |program|) <= program
            && var r := Run(Prologue(slots, |program|), program + Payload(args), m);
               r.Some? && r.value.stack == m.stack + ValuesOf(args)
  {
    var slots := SlotsFrom(args, 0);
    var program := LinkStaged(slots, main, helpers).code;
    StagedLengthExact(slots, main, helpers);
    ReadBack(args, program, m);
  }

  lemma ReadBack(args: seq<Arg>, program: seq<byte>, m: Machine)
    requires forall i | 0 <= i < |args| :: Stageable(args[i]) && Word(args[i])
    requires |program| + TotalSize(args) <= MAX_COMPOSITE_BYTES
    ensures var slots := SlotsFrom(args, 0);
            var r := Run(Prologue(slots, |program|), program + Payload(args), m);
            r.Some? && r.value.stack == m.stack + ValuesOf(args)
  {
    PayloadSlots(args, []);
    assert [] + Payload(args) == Payload(args);
    PrologueRuns(SlotsFrom(args, 0), program, Payload(args), m);
  }
}
