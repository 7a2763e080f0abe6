/**
 * Year 2024, day 17: a three-register machine with eight instructions.  A
 * program is a list of 3-bit values read in pairs (opcode, operand); the
 * instruction pointer moves by two unless a jump is taken, and the machine
 * halts when the pointer leaves the program.  Registers are `u64` values,
 * naturals below 2^64; a right shift is a division by a power of two and `^`
 * the bitwise exclusive or, defined bit by bit.
 */
module Y2024Day17 {
  import opened Common

  function Pow2(n: nat): (r: nat)
    ensures r >= 1
  {
    if n == 0 then 1 else 2 * Pow2(n - 1)
  }

  lemma {:induction false} Pow2Add(a: nat, b: nat)
    ensures Pow2(a + b) == Pow2(a) * Pow2(b)
    decreases a
  {
    if a > 0 { Pow2Add(a - 1, b); }
  }

  lemma Pow2Of64()
    ensures Pow2(64) == 0x1_0000_0000_0000_0000
  {
    assert Pow2(1) == 2;
    Pow2Add(1, 1);
    assert Pow2(2) == 4;
    Pow2Add(2, 2);
    assert Pow2(4) == 16;
    Pow2Add(4, 4);
    assert Pow2(8) == 256;
    Pow2Add(8, 8);
    assert Pow2(16) == 65536;
    Pow2Add(16, 16);
    assert Pow2(32) == 0x1_0000_0000;
    Pow2Add(32, 32);
  }

  /** A `u64` register value. */
  type U64 = x: nat | x < 0x1_0000_0000_0000_0000

  /** Bitwise exclusive or of two naturals. */
  function Xor(a: nat, b: nat): nat
    decreases a + b
  {
    if a == 0 && b == 0 then 0
    else (a % 2 + b % 2) % 2 + 2 * Xor(a / 2, b / 2)
  }

  /** Exclusive or stays within as many bits as its operands. */
  lemma {:induction false} XorBelow(a: nat, b: nat, n: nat)
    requires a < Pow2(n) && b < Pow2(n)
    ensures Xor(a, b) < Pow2(n)
    decreases n
  {
    if a != 0 || b != 0 {
      XorBelow(a / 2, b / 2, n - 1);
    }
  }

  lemma {:induction false} XorZero(a: nat)
    ensures Xor(a, 0) == a
  {
    if a != 0 { XorZero(a / 2); }
  }

  lemma XorDigits(a: nat, b: nat)
    requires a != 0 || b != 0
    ensures Xor(a, b) / 2 == Xor(a / 2, b / 2)
    ensures Xor(a, b) % 2 == (a % 2 + b % 2) % 2
  {
  }

  lemma ParityCancel(p: nat, q: nat)
    requires p < 2 && q < 2
    ensures ((p + q) % 2 + q) % 2 == p
  {
  }

  lemma DigitsJoin(x: nat, y: nat)
    requires x % 2 == y % 2 && x / 2 == y / 2
    ensures x == y
  {
  }

  /** Exclusive or with the same value twice gives the value back. */
  lemma {:induction false} XorTwice(a: nat, b: nat)
    ensures Xor(Xor(a, b), b) == a
    decreases a + b
  {
    if a != 0 || b != 0 {
      var x := Xor(a, b);
      XorDigits(a, b);
      if x == 0 && b == 0 {
        XorZero(a);
      } else {
        XorDigits(x, b);
        XorTwice(a / 2, b / 2);
        ParityCancel(a % 2, b % 2);
        DigitsJoin(Xor(x, b), a);
      }
    }
  }

  /** `u64 ^ u64`. */
  function Xor64(a: U64, b: U64): (r: U64)
  {
    Pow2Of64();
    XorBelow(a, b, 64);
    Xor(a, b)
  }

  datatype Instruction = Adv | Bxl | Bst | Jnz | Bxc | Out | Bdv | Cdv

  /** A `u8` value of the program text. */
  type Byte = x: nat | x < 256

  /** `Instruction::new`: the opcodes 0 to 7; `None` where the source panics. */
  function Decode(code: Byte): (r: Option<Instruction>)
    ensures r.Some? <==> code < 8
  {
    if code == 0 then Some(Adv)
    else if code == 1 then Some(Bxl)
    else if code == 2 then Some(Bst)
    else if code == 3 then Some(Jnz)
    else if code == 4 then Some(Bxc)
    else if code == 5 then Some(Out)
    else if code == 6 then Some(Bdv)
    else if code == 7 then Some(Cdv)
    else None
  }

  /** The opcode an instruction is written with. */
  function Opcode(i: Instruction): (c: Byte)
    ensures c < 8
  {
    match i
    case Adv => 0
    case Bxl => 1
    case Bst => 2
    case Jnz => 3
    case Bxc => 4
    case Out => 5
    case Bdv => 6
    case Cdv => 7
  }

  /** Decoding is the inverse of writing an instruction down, in both directions. */
  lemma DecodeOpcode(i: Instruction, code: Byte)
    ensures Decode(Opcode(i)) == Some(i)
    ensures Decode(code) == Some(i) <==> code == Opcode(i)
  {
  }

  datatype Operand = Operand(value: Byte)

  /** The literal value of an operand. */
  function Literal(op: Operand): nat
  {
    op.value
  }

  /** `combo`: 0 to 3 stand for themselves, 4 to 6 read registers A, B and C;
      7 and above index past the three registers, where the source panics. */
  function Combo(op: Operand, regs: seq<U64>): (r: Option<U64>)
    requires |regs| == 3
    ensures r.Some? <==> op.value < 7
    ensures op.value < 4 ==> r == Some(op.value)
    ensures 4 <= op.value < 7 ==> r == Some(regs[op.value - 4])
  {
    if op.value < 4 then Some(op.value)
    else if op.value < 7 then Some(regs[op.value - 4])
    else None
  }

  /** `get_instructions`: every pair of adjacent values, decoded; `None` where
      an opcode position holds a value above 7 and the source panics. */
  function GetInstructions(raw: seq<Byte>): (r: Option<seq<(Instruction, Operand)>>)
    ensures r.Some? <==> forall i | 0 <= i < |raw| - 1 :: raw[i] < 8
    ensures r.Some? ==> (|r.value| == Max(|raw| - 1, 0)
      && forall i | 0 <= i < |r.value| :: Decode(raw[i]) == Some(r.value[i].0) && r.value[i].1 == Operand(raw[i + 1]))
  {
    if |raw| < 2 then Some([])
    else
      match (Decode(raw[0]), GetInstructions(raw[1..]))
      case (Some(i), Some(rest)) =>
        TailIndex(raw);
        Some([(i, Operand(raw[1]))] + rest)
      case (None, _) => None
      case (_, None) =>
        TailIndex(raw);
        None
  }

  lemma TailIndex(raw: seq<Byte>)
    requires |raw| > 0
    ensures forall k | 0 <= k < |raw| - 1 :: raw[1..][k] == raw[k + 1]
  {
  }

  /** The effect of one instruction on the registers: the new registers, the
      next pointer and the output, or a panic. */
  datatype Outcome = Next(regs: seq<U64>, iptr: nat, out: Option<nat>) | Panic

  /** `u64 >> n`: the shift panics from 64 bits on (an overflow check). */
  function Shr(x: U64, n: U64): (r: Option<U64>)
    ensures r.Some? ==> r.value <= x
  {
    if n < 64 then Some(Quot(x, Pow2(n))) else None
  }

  /** Integer division, which never exceeds the dividend. */
  function Quot(x: nat, d: nat): (q: nat)
    requires d >= 1
    ensures q <= x
  {
    assert x == d * (x / d) + x % d;
    x / d
  }

  /** `exec`, on the registers as a value. */
  function Step(instr: Instruction, op: Operand, regs: seq<U64>, iptr: nat): Outcome
    requires |regs| == 3
  {
    var combo := Combo(op, regs);
    match instr
    case Adv =>
      if combo.None? || Shr(regs[0], combo.value).None? then Panic
      else Next(regs[0 := Shr(regs[0], combo.value).value], iptr + 2, None)
    case Bxl => Next(regs[1 := Xor64(regs[1], op.value)], iptr + 2, None)
    case Bst =>
      if combo.None? then Panic else Next(regs[1 := combo.value % 8], iptr + 2, None)
    case Jnz => if regs[0] != 0 then Next(regs, Literal(op), None) else Next(regs, iptr + 2, None)
    case Bxc => Next(regs[1 := Xor64(regs[1], regs[2])], iptr + 2, None)
    case Out =>
      if combo.None? then Panic else Next(regs, iptr + 2, Some(combo.value % 8))
    case Bdv =>
      if combo.None? || Shr(regs[0], combo.value).None? then Panic
      else Next(regs[1 := Shr(regs[0], combo.value).value], iptr + 2, None)
    case Cdv =>
      if combo.None? || Shr(regs[0], combo.value).None? then Panic
      else Next(regs[2 := Shr(regs[0], combo.value).value], iptr + 2, None)
  }

  /** The register an instruction writes, 3 for none. */
  function Target(instr: Instruction): nat
  {
    match instr
    case Adv => 0
    case Bxl => 1
    case Bst => 1
    case Bxc => 1
    case Bdv => 1
    case Cdv => 2
    case _ => 3
  }

  /**
   * What one instruction changes: only its target register; it outputs only
   * for `out`, a value below 8; the pointer moves by two except for a taken
   * jump, which goes to the operand; it panics only on a reserved combo
   * operand or a shift of 64 bits or more.
   */
  lemma StepFrame(instr: Instruction, op: Operand, regs: seq<U64>, iptr: nat)
    requires |regs| == 3
    ensures Step(instr, op, regs, iptr).Panic? <==>
      (instr in {Adv, Bst, Out, Bdv, Cdv} && op.value >= 7)
      || (instr in {Adv, Bdv, Cdv} && op.value < 7 && Combo(op, regs).value >= 64)
    ensures Step(instr, op, regs, iptr).Next? ==>
      var n := Step(instr, op, regs, iptr);
      |n.regs| == 3
      && (forall k | 0 <= k < 3 && k != Target(instr) :: n.regs[k] == regs[k])
      && (n.out.Some? <==> instr == Out)
      && (n.out.Some? ==> n.out.value < 8)
      && n.iptr == (if instr == Jnz && regs[0] != 0 then Literal(op) else iptr + 2)
  {
  }

  /** Register A never grows: only `adv` writes it, shifting it right. */
  lemma StepNeverRaisesA(instr: Instruction, op: Operand, regs: seq<U64>, iptr: nat)
    requires |regs| == 3 && Step(instr, op, regs, iptr).Next?
    ensures Step(instr, op, regs, iptr).regs[0] <= regs[0]
  {
  }

  /** The run of a program: halted with its outputs, crashed, or out of fuel. */
  datatype RunResult = Halted(outs: seq<nat>) | Crashed | OutOfFuel

  function Emitted(o: Option<nat>): seq<nat>
  {
    if o.Some? then [o.value] else []
  }

  /** The outputs of `run_program`, in execution order, with at most `fuel`
      instructions executed. */
  function Run(instrs: seq<(Instruction, Operand)>, regs: seq<U64>, iptr: nat, fuel: nat): RunResult
    requires |regs| == 3
    decreases fuel
  {
    if iptr >= |instrs| then Halted([])
    else if fuel == 0 then OutOfFuel
    else
      match Step(instrs[iptr].0, instrs[iptr].1, regs, iptr)
      case Panic => Crashed
      case Next(regs', iptr', o) =>
        assert |regs'| == 3 by { StepFrame(instrs[iptr].0, instrs[iptr].1, regs, iptr); }
        var rest := Run(instrs, regs', iptr', fuel - 1);
        if rest.Halted? then Halted(Emitted(o) + rest.outs) else rest
  }

  /** Every output is a 3-bit value. */
  lemma {:induction false} RunOutputsBelow8(instrs: seq<(Instruction, Operand)>, regs: seq<U64>, iptr: nat, fuel: nat)
    requires |regs| == 3 && Run(instrs, regs, iptr, fuel).Halted?
    ensures forall k | 0 <= k < |Run(instrs, regs, iptr, fuel).outs| :: Run(instrs, regs, iptr, fuel).outs[k] < 8
    decreases fuel
  {
    if iptr < |instrs| {
      var (instr, op) := instrs[iptr];
      StepFrame(instr, op, regs, iptr);
      var n := Step(instr, op, regs, iptr);
      RunOutputsBelow8(instrs, n.regs, n.iptr, fuel - 1);
    }
  }

  /** More fuel changes nothing once a run has halted or crashed. */
  lemma {:induction false} RunFuelMono(instrs: seq<(Instruction, Operand)>, regs: seq<U64>, iptr: nat, fuel: nat, more: nat)
    requires |regs| == 3 && fuel <= more && !Run(instrs, regs, iptr, fuel).OutOfFuel?
    ensures Run(instrs, regs, iptr, more) == Run(instrs, regs, iptr, fuel)
    decreases fuel
  {
    if iptr < |instrs| {
      var (instr, op) := instrs[iptr];
      StepFrame(instr, op, regs, iptr);
      var n := Step(instr, op, regs, iptr);
      if n.Next? {
        RunFuelMono(instrs, n.regs, n.iptr, fuel - 1, more - 1);
      }
    }
  }

  /** Without jumps the pointer only moves forward, so a run needs no more steps
      than the instructions left. */
  lemma {:induction false} NoJumpHalts(instrs: seq<(Instruction, Operand)>, regs: seq<U64>, iptr: nat, fuel: nat)
    requires |regs| == 3 && forall k | 0 <= k < |instrs| :: instrs[k].0 != Jnz
    requires iptr + 2 * fuel >= |instrs|
    ensures !Run(instrs, regs, iptr, fuel).OutOfFuel?
    decreases fuel
  {
    if iptr < |instrs| {
      var (instr, op) := instrs[iptr];
      StepFrame(instr, op, regs, iptr);
      var n := Step(instr, op, regs, iptr);
      if n.Next? {
        NoJumpHalts(instrs, n.regs, n.iptr, fuel - 1);
      }
    }
  }

  /**
   * `exec`: one instruction on the register array, which it updates in place;
   * the new pointer and the output, or `None` where the source panics.
   */
  method Exec(instr: Instruction, op: Operand, registers: array<U64>, iptr: nat) returns (r: Option<(nat, Option<nat>)>)
    requires registers.Length == 3
    modifies registers
    ensures Step(instr, op, old(registers[..]), iptr).Panic? <==> r.None?
    ensures r.Some? ==> Step(instr, op, old(registers[..]), iptr) == Next(registers[..], r.value.0, r.value.1)
  {
    var combo := Combo(op, registers[..]);
    r := Some((iptr + 2, None));
    match instr {
      case Adv =>
        if combo.None? || Shr(registers[0], combo.value).None? {
          return None;
        }
        registers[0] := Shr(registers[0], combo.value).value;
      case Bxl =>
        registers[1] := Xor64(registers[1], op.value);
      case Bst =>
        if combo.None? {
          return None;
        }
        registers[1] := combo.value % 8;
      case Jnz =>
        if registers[0] != 0 {
          return Some((Literal(op), None));
        }
      case Bxc =>
        registers[1] := Xor64(registers[1], registers[2]);
      case Out =>
        if combo.None? {
          return None;
        }
        return Some((iptr + 2, Some(combo.value % 8)));
      case Bdv =>
        if combo.None? || Shr(registers[0], combo.value).None? {
          return None;
        }
        registers[1] := Shr(registers[0], combo.value).value;
      case Cdv =>
        if combo.None? || Shr(registers[0], combo.value).None? {
          return None;
        }
        registers[2] := Shr(registers[0], combo.value).value;
    }
  }

  /**
   * `run_program` collected into a list: the iterator's loop executes
   * instructions until the pointer leaves the program, yielding each output in
   * turn.  At most `fuel` instructions run.
   */
  method RunProgram(init: seq<U64>, instrs: seq<(Instruction, Operand)>, fuel: nat) returns (r: RunResult)
    requires |init| == 3
    ensures r == Run(instrs, init, 0, fuel)
  {
    var registers := new U64[3](k requires 0 <= k < 3 => init[k]);
    assert registers[..] == init;
    var iptr: nat := 0;
    var outs: seq<nat> := [];
    var left := fuel;
    while iptr < |instrs|
      invariant registers.Length == 3
      invariant Run(instrs, init, 0, fuel) == Prefixed(outs, Run(instrs, registers[..], iptr, left))
      decreases left
    {
      if left == 0 {
        return OutOfFuel;
      }
      ghost var regs := registers[..];
      var e := Exec(instrs[iptr].0, instrs[iptr].1, registers, iptr);
      if e.None? {
        assert Run(instrs, regs, iptr, left) == Crashed;
        return Crashed;
      }
      RunStep(outs, instrs, regs, iptr, left);
      iptr := e.value.0;
      outs := outs + Emitted(e.value.1);
      left := left - 1;
    }
    return Halted(outs);
  }

  /** A run's outputs after `outs` have been yielded already. */
  function Prefixed(outs: seq<nat>, r: RunResult): RunResult
  {
    if r.Halted? then Halted(outs + r.outs) else r
  }

  /** One step of a run moves its output into the prefix. */
  lemma RunStep(outs: seq<nat>, instrs: seq<(Instruction, Operand)>, regs: seq<U64>, iptr: nat, fuel: nat)
    requires |regs| == 3 && iptr < |instrs| && fuel > 0
    requires Step(instrs[iptr].0, instrs[iptr].1, regs, iptr).Next?
    ensures var n := Step(instrs[iptr].0, instrs[iptr].1, regs, iptr);
      |n.regs| == 3 &&
      Prefixed(outs, Run(instrs, regs, iptr, fuel)) == Prefixed(outs + Emitted(n.out), Run(instrs, n.regs, n.iptr, fuel - 1))
  {
    var n := Step(instrs[iptr].0, instrs[iptr].1, regs, iptr);
    StepFrame(instrs[iptr].0, instrs[iptr].1, regs, iptr);
    var rest := Run(instrs, n.regs, n.iptr, fuel - 1);
    if rest.Halted? {
      assert outs + (Emitted(n.out) + rest.outs) == outs + Emitted(n.out) + rest.outs;
    }
  }

  // ---------------------------------------------------------------------------
  // Part a: the outputs joined with commas

  /** `join(",")` of the outputs, each a single digit. */
  function Render(outs: seq<nat>): (s: string)
    requires forall k | 0 <= k < |outs| :: outs[k] < 8
    ensures |outs| > 0 ==> |s| == 2 * |outs| - 1
    ensures |outs| == 0 ==> s == ""
  {
    if |outs| == 0 then ""
    else if |outs| == 1 then [(48 + outs[0]) as char]
    else [(48 + outs[0]) as char, ','] + Render(outs[1..])
  }

  /** Reading comma-separated digits back. */
  function Unrender(s: string): seq<nat>
  {
    if |s| == 0 then []
    else if |s| == 1 then [DigitValue(s[0])]
    else [DigitValue(s[0])] + Unrender(s[2..])
  }

  function DigitValue(c: char): nat
  {
    if '0' <= c <= '9' then c as nat - 48 else 0
  }

  lemma UnrenderCons(c: char, rest: string)
    requires |rest| > 0
    ensures Unrender([c, ','] + rest) == [DigitValue(c)] + Unrender(rest)
  {
    var s := [c, ','] + rest;
    assert s[0] == c && s[2..] == rest;
  }

  /** The rendering loses nothing: it reads back as the outputs. */
  lemma {:induction false} RenderRoundTrip(outs: seq<nat>)
    requires forall k | 0 <= k < |outs| :: outs[k] < 8
    ensures Unrender(Render(outs)) == outs
  {
    if |outs| > 1 {
      RenderRoundTrip(outs[1..]);
      var c := (48 + outs[0]) as char;
      UnrenderCons(c, Render(outs[1..]));
      assert outs == [outs[0]] + outs[1..];
    }
  }

  /** `part_a`: the program's outputs as text; `None` where the source panics,
      and also when the program does not halt within `fuel` steps. */
  method PartA(registers: seq<U64>, raw: seq<Byte>, fuel: nat) returns (r: Option<string>)
    requires |registers| == 3
    ensures r.Some? <==> GetInstructions(raw).Some? && Run(GetInstructions(raw).value, registers, 0, fuel).Halted?
    ensures r.Some? ==>
      var outs := Run(GetInstructions(raw).value, registers, 0, fuel).outs;
      (forall k | 0 <= k < |outs| :: outs[k] < 8) && r.value == Render(outs) && Unrender(r.value) == outs
  {
    var instrs := GetInstructions(raw);
    if instrs.None? {
      return None;
    }
    var run := RunProgram(registers, instrs.value, fuel);
    if !run.Halted? {
      return None;
    }
    RunOutputsBelow8(instrs.value, registers, 0, fuel);
    RenderRoundTrip(run.outs);
    return Some(Render(run.outs));
  }

  /** The sample program's instructions: `adv 1`, `bxl 5`, `out 4`, `bxc 3`,
      `jnz 0`; only the even positions run. */
  function SampleProgram(): seq<(Instruction, Operand)>
  {
    [(Adv, Operand(1)), (Bxl, Operand(5)), (Out, Operand(4)), (Bxc, Operand(3)), (Jnz, Operand(0))]
  }

  /** One pass of the sample loop: halve A, print its low three bits, and go
      round again unless A became zero. */
  lemma SampleLoop(a: U64, fuel: nat)
    requires fuel >= 3
    ensures Run(SampleProgram(), [a, 0, 0], 0, fuel)
         == if a / 2 == 0 then Halted([0])
            else Prefixed([a / 2 % 8], Run(SampleProgram(), [a / 2, 0, 0], 0, fuel - 3))
  {
    assert Pow2(1) == 2;
    var p := SampleProgram();
    assert Step(Adv, Operand(1), [a, 0, 0], 0) == Next([a / 2, 0, 0], 2, None);
    assert Step(Out, Operand(4), [a / 2, 0, 0], 2) == Next([a / 2, 0, 0], 4, Some(a / 2 % 8));
    var rest := Run(p, [a / 2, 0, 0], 0, fuel - 3);
    if a / 2 == 0 {
      assert Run(p, [a / 2, 0, 0], 4, fuel - 2) == Halted([]);
    } else {
      assert Run(p, [a / 2, 0, 0], 4, fuel - 2) == rest;
    }
  }

  /** What the sample loop prints from A: the low three bits of each halving,
      until A reaches zero. */
  function HalvingDigits(a: nat): seq<nat>
  {
    if a / 2 == 0 then [0] else [a / 2 % 8] + HalvingDigits(a / 2)
  }

  /** The sample program halts after one pass per printed digit, having
      printed exactly the halving digits of A. */
  lemma {:induction false} SampleRuns(a: U64)
    ensures Run(SampleProgram(), [a, 0, 0], 0, 3 * |HalvingDigits(a)|) == Halted(HalvingDigits(a))
    decreases a
  {
    SampleLoop(a, 3 * |HalvingDigits(a)|);
    if a / 2 != 0 {
      SampleRuns(a / 2);
    }
  }

  lemma SampleParse()
    ensures GetInstructions([0, 1, 5, 4, 3, 0]) == Some(SampleProgram())
  {
    var raw: seq<Byte> := [0, 1, 5, 4, 3, 0];
    var r := GetInstructions(raw);
    assert r.Some? && |r.value| == 5;
    var p := r.value;
    assert Decode(raw[0]) == Some(p[0].0) && Decode(raw[1]) == Some(p[1].0) && Decode(raw[2]) == Some(p[2].0);
    assert Decode(raw[3]) == Some(p[3].0) && Decode(raw[4]) == Some(p[4].0);
    assert p[0] == (Adv, Operand(1)) && p[1] == (Bxl, Operand(5)) && p[2] == (Out, Operand(4));
    assert p[3] == (Bxc, Operand(3)) && p[4] == (Jnz, Operand(0));
    assert p == SampleProgram();
  }
}
