/** src/day10.rs: a CPU with one register `x` that runs `noop` (one cycle) and
    `addx n` (two cycles, then x += n), sampled for signal strengths and drawn
    as a 40 x 6 screen. */
module Day10 {
  import opened Wrappers
  import opened Strings

  datatype Instruction = Noop | Addx(n: int)

  /** `Instruction::cycles`. */
  function Cycles(i: Instruction): (c: nat)
    ensures 1 <= c <= 2
  {
    match i
    case Noop => 1
    case Addx(_) => 2
  }

  /** What an instruction adds to `x` when it completes. */
  function Delta(i: Instruction): int
  {
    match i
    case Noop => 0
    case Addx(n) => n
  }

  /** `parse_instruction` from the whitespace-separated words of a line: `None`
      where the source panics (unknown word, missing or unparsable operand). */
  function ParseInstruction(words: seq<string>): (r: Option<Instruction>)
    ensures r == Some(Noop) <==> |words| > 0 && words[0] == "noop"
    ensures r.Some? && r.value.Addx? <==>
              |words| > 1 && words[0] == "addx" && ParseInt(words[1]).Some?
    ensures r.Some? && r.value.Addx? ==> r.value.n == ParseInt(words[1]).value
  {
    if |words| == 0 then None
    else if words[0] == "noop" then Some(Noop)
    else if words[0] == "addx" && |words| > 1 then
      match ParseInt(words[1])
      case Some(n) => Some(Addx(n))
      case None => None
    else None
  }

  /** Total cycles of a run of instructions. */
  function SumCycles(s: seq<Instruction>): nat
  {
    if |s| == 0 then 0 else SumCycles(s[..|s| - 1]) + Cycles(s[|s| - 1])
  }

  /** Total of the `addx` operands of a run of instructions. */
  function AddSum(s: seq<Instruction>): int
  {
    if |s| == 0 then 0 else AddSum(s[..|s| - 1]) + Delta(s[|s| - 1])
  }

  /** The value of `x` during cycle c (counting from 1) of a program started
      with x == x0: the first instruction occupies the program's first
      `Cycles` cycles, and only after them does its effect show. */
  function XFrom(x0: int, s: seq<Instruction>, c: int): int
    decreases |s|
  {
    if |s| == 0 || c <= Cycles(s[0]) then x0
    else XFrom(x0 + Delta(s[0]), s[1..], c - Cycles(s[0]))
  }

  function XDuring(s: seq<Instruction>, c: int): int
  {
    XFrom(1, s, c)
  }

  /** Running the first k instructions first: after their cycles, `x` carries
      their operands and the rest of the program takes over. */
  lemma {:induction false} XFromPrefix(x0: int, s: seq<Instruction>, k: nat, c: int)
    requires k <= |s| && c >= 1
    ensures XFrom(x0, s, SumCycles(s[..k]) + c) == XFrom(x0 + AddSum(s[..k]), s[k..], c)
  {
    if k > 0 {
      var j := k - 1;
      assert s[..k][..j] == s[..j];
      XFromPrefix(x0, s, j, Cycles(s[j]) + c);
      assert s[j..][1..] == s[k..];
    } else {
      assert s[..0] == [];
    }
  }

  /** What holds of the VM fields between cycles. */
  predicate VmInvariant(instructions: seq<Instruction>, ip: nat, halted: bool, toNext: nat, x: int, cycles: int)
  {
    && |instructions| > 0
    && ip <= |instructions|
    && (halted <==> ip == |instructions|)
    && (!halted ==> 1 <= toNext <= Cycles(instructions[ip]))
    && x == 1 + AddSum(instructions[..ip])
    && cycles == 1 + SumCycles(instructions[..ip]) + (if halted then 0 else Cycles(instructions[ip]) - toNext)
  }

  /** Under the invariant `x` is the register value of the current cycle, and
      once halted it is the final value for every later cycle; the run then
      took `1 + SumCycles` cycles. */
  lemma VmInvariantMeans(instructions: seq<Instruction>, ip: nat, halted: bool, toNext: nat, x: int, cycles: int)
    requires VmInvariant(instructions, ip, halted, toNext, x, cycles)
    ensures x == XDuring(instructions, cycles)
    ensures halted ==> cycles == 1 + SumCycles(instructions)
    ensures halted ==> forall c :: c >= cycles ==> XDuring(instructions, c) == x
  {
    var n := |instructions|;
    XFromPrefix(1, instructions, ip, cycles - SumCycles(instructions[..ip]));
    if halted {
      assert instructions[..n] == instructions;
      forall c | c >= cycles ensures XDuring(instructions, c) == x {
        XFromPrefix(1, instructions, n, c - SumCycles(instructions));
      }
    }
  }

  /** `Vm`: the register, the cycle counter and the program counter. */
  class Vm {
    var x: int
    var cycles: int
    var halted: bool
    var instructions: seq<Instruction>
    var instructionPointer: nat
    var cyclesToNextInstruction: nat

    predicate Valid()
      reads this
    {
      VmInvariant(instructions, instructionPointer, halted, cyclesToNextInstruction, x, cycles)
    }

    /** `Vm::new`; the source reads `instructions[0]`, so the program is not empty. */
    constructor(program: seq<Instruction>)
      requires |program| > 0
      ensures Valid()
      ensures instructions == program && x == 1 && cycles == 1 && !halted
      ensures instructionPointer == 0 && cyclesToNextInstruction == Cycles(program[0])
    {
      x := 1;
      cycles := 1;
      halted := false;
      cyclesToNextInstruction := Cycles(program[0]);
      instructions := program;
      instructionPointer := 0;
      assert program[..0] == [];
    }

    /** `Vm::get_current_instruction`. */
    function GetCurrentInstruction(): (r: Option<Instruction>)
      reads this
      ensures r.Some? <==> instructionPointer < |instructions|
      ensures r.Some? ==> r.value == instructions[instructionPointer]
    {
      if instructionPointer < |instructions| then Some(instructions[instructionPointer]) else None
    }

    /** `Vm::execute_instruction`. */
    method ExecuteInstruction(instruction: Instruction)
      modifies this
      ensures x == old(x) + Delta(instruction)
      ensures cycles == old(cycles) && halted == old(halted) && instructions == old(instructions)
      ensures instructionPointer == old(instructionPointer)
      ensures cyclesToNextInstruction == old(cyclesToNextInstruction)
    {
      match instruction
      case Noop =>
      case Addx(n) => x := x + n;
    }

    /** `Vm::execute_cycle`: one clock tick.  A halted VM does nothing; otherwise
        the cycle counter advances and, when the current instruction has used
        up its cycles, it takes effect and the next one is loaded. */
    method ExecuteCycle()
      requires Valid()
      modifies this
      ensures Valid() && instructions == old(instructions)
      ensures old(halted) ==>
                && halted && x == old(x) && cycles == old(cycles)
                && instructionPointer == old(instructionPointer)
                && cyclesToNextInstruction == old(cyclesToNextInstruction)
      ensures !old(halted) ==> cycles == old(cycles) + 1
      ensures !old(halted) && old(cyclesToNextInstruction) > 1 ==>
                && x == old(x) && !halted
                && instructionPointer == old(instructionPointer)
                && cyclesToNextInstruction == old(cyclesToNextInstruction) - 1
      ensures !old(halted) && old(cyclesToNextInstruction) == 1 ==>
                && x == old(x) + Delta(old(instructions[instructionPointer]))
                && instructionPointer == old(instructionPointer) + 1
                && (halted <==> instructionPointer == |instructions|)
                && (!halted ==> cyclesToNextInstruction == Cycles(instructions[instructionPointer]))
    {
      if halted {
        return;
      }
      ghost var ip := instructionPointer;
      if cyclesToNextInstruction > 0 {
        cycles := cycles + 1;
        cyclesToNextInstruction := cyclesToNextInstruction - 1;
      }
      if cyclesToNextInstruction == 0 {
        var currentInstruction := GetCurrentInstruction();
        ExecuteInstruction(currentInstruction.value);
        instructionPointer := instructionPointer + 1;
        assert instructions[..ip + 1][..ip] == instructions[..ip];
        var next := GetCurrentInstruction();
        if next.Some? {
          cyclesToNextInstruction := Cycles(next.value);
        } else {
          halted := true;
        }
      }
    }
  }

  /** The sum `day10a` accumulates: c · x over the cycles c in 2..last with
      c ≡ 20 (mod 40), x being the register value during cycle c. */
  function SignalSum(s: seq<Instruction>, last: int): (r: int)
    decreases last
    ensures last < 20 ==> r == 0
    ensures 20 <= last < 60 ==> r == 20 * XDuring(s, 20)
    ensures 60 <= last < 100 ==> r == 20 * XDuring(s, 20) + 60 * XDuring(s, 60)
  {
    if last <= 1 then 0
    else SignalSum(s, last - 1) + (if (last + 20) % 40 == 0 then last * XDuring(s, last) else 0)
  }

  /** `day10a`: run to halt, sampling after every cycle. */
  method Day10a(instructions: seq<Instruction>) returns (signalSum: int)
    requires |instructions| > 0
    ensures signalSum == SignalSum(instructions, 1 + SumCycles(instructions))
  {
    var vm := new Vm(instructions);
    signalSum := 0;
    while !vm.halted
      invariant vm.Valid() && vm.instructions == instructions
      invariant signalSum == SignalSum(instructions, vm.cycles)
      decreases |vm.instructions| - vm.instructionPointer, vm.cyclesToNextInstruction
    {
      vm.ExecuteCycle();
      VmInvariantMeans(vm.instructions, vm.instructionPointer, vm.halted, vm.cyclesToNextInstruction, vm.x, vm.cycles);
      if (vm.cycles + 20) % 40 == 0 {
        var signalStrength := vm.cycles * vm.x;
        signalSum := signalSum + signalStrength;
      }
    }
    VmInvariantMeans(vm.instructions, vm.instructionPointer, vm.halted, vm.cyclesToNextInstruction, vm.x, vm.cycles);
  }

  /** The pixel rule: lit when the three-wide sprite centred on `x` covers the
      column being drawn. */
  function Pixel(x: int, i: nat): (r: char)
    ensures r == '#' || r == '.'
    ensures r == '#' <==> i % 40 in {x - 1, x, x + 1}
    ensures r == '#' ==> -1 <= x <= 40
  {
    if -1 <= x - (i % 40) <= 1 then '#' else '.'
  }

  /** `day10b`: pixel i is drawn during cycle i + 1, then the VM ticks. */
  method Day10b(instructions: seq<Instruction>) returns (screen: array<char>)
    requires |instructions| > 0
    ensures fresh(screen) && screen.Length == 240
    ensures forall i :: 0 <= i < 240 ==> screen[i] == Pixel(XDuring(instructions, i + 1), i)
  {
    var vm := new Vm(instructions);
    screen := new char[40 * 6](_ => '.');
    for i := 0 to screen.Length
      invariant vm.Valid() && vm.instructions == instructions
      invariant !vm.halted ==> vm.cycles == 1 + i
      invariant vm.halted ==> vm.cycles <= 1 + i
      invariant forall k :: 0 <= k < i ==> screen[k] == Pixel(XDuring(instructions, k + 1), k)
    {
      VmInvariantMeans(vm.instructions, vm.instructionPointer, vm.halted, vm.cyclesToNextInstruction, vm.x, vm.cycles);
      var xPos := i % 40;
      if -1 <= vm.x - xPos <= 1 {
        screen[i] := '#';
      } else {
        screen[i] := '.';
      }
      vm.ExecuteCycle();
    }
  }

  /** The register value changes only at the cycle right after an instruction
      completes: during the cycles an instruction runs, `x` stays put. */
  lemma XSteadyWhileRunning(s: seq<Instruction>, k: nat, c: int)
    requires k < |s| && 1 <= c <= Cycles(s[k])
    ensures XDuring(s, SumCycles(s[..k]) + c) == 1 + AddSum(s[..k])
  {
    XFromPrefix(1, s, k, c);
  }
}
