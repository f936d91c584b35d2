/** What the builder reads from a class file: the superclass and interface
    names, and per method its name, descriptor, access flags and the
    instructions the discovery visitor looks at. Opcode numbers and flag bits
    are those of the Java Virtual Machine Specification (section 6.5 for the
    instructions, section 4.6 for the method access flags). */
module Bytecode {
  import opened Wrappers
  import opened MethodPaths

  newtype Opcode = x: int | 0 <= x < 256

  const FADD: Opcode := 98
  const DADD: Opcode := 99
  const FSUB: Opcode := 102
  const DSUB: Opcode := 103
  const FMUL: Opcode := 106
  const DMUL: Opcode := 107
  const FDIV: Opcode := 110
  const DDIV: Opcode := 111
  const FREM: Opcode := 114
  const DREM: Opcode := 115
  const FNEG: Opcode := 118
  const DNEG: Opcode := 119
  const I2F: Opcode := 134
  const I2D: Opcode := 135
  const L2F: Opcode := 137
  const L2D: Opcode := 138
  const F2I: Opcode := 139
  const F2L: Opcode := 140
  const F2D: Opcode := 141
  const D2I: Opcode := 142
  const D2L: Opcode := 143
  const D2F: Opcode := 144
  const FCMPL: Opcode := 149
  const FCMPG: Opcode := 150
  const DCMPL: Opcode := 151
  const DCMPG: Opcode := 152

  /** `hasFloatResult`: the switch of the discovery visitor. */
  predicate HasFloatResult(op: Opcode) {
    op == DADD || op == FADD || op == DSUB || op == FSUB
    || op == DMUL || op == FMUL || op == DDIV || op == FDIV
    || op == DREM || op == FREM || op == DNEG || op == FNEG
    || op == I2D || op == I2F || op == L2D || op == L2F
    || op == F2D || op == D2F
  }

  // ---------------------------------------------------------------------------
  // An independent reading of the instruction set

  datatype ValueKind = IntKind | LongKind | FloatKind | DoubleKind

  /** The kind of value a typed arithmetic, conversion or comparison
      instruction pushes. The arithmetic block `iadd` .. `dneg` (96 .. 119)
      cycles through int, long, float, double; the conversions `i2l` .. `i2s`
      (133 .. 147) and the comparisons `lcmp` .. `dcmpg` (148 .. 152) follow
      their table. Every other instruction gives `None`. */
  function ResultKind(op: Opcode): Option<ValueKind> {
    if 96 <= op <= 119 then
      var k := (op - 96) % 4;
      Some(if k == 0 then IntKind else if k == 1 then LongKind else if k == 2 then FloatKind else DoubleKind)
    else if op == 133 || op == 140 || op == 143 then Some(LongKind)
    else if op == 134 || op == 137 || op == 144 then Some(FloatKind)
    else if op == 135 || op == 138 || op == 141 then Some(DoubleKind)
    else if 136 <= op <= 152 then Some(IntKind)
    else None
  }

  predicate IsFloatingKind(k: Option<ValueKind>) {
    k == Some(FloatKind) || k == Some(DoubleKind)
  }

  /** The switch lists exactly the arithmetic and conversion instructions
      whose result is a `float` or a `double`. */
  lemma HasFloatResultExactly(op: Opcode)
    ensures HasFloatResult(op) <==> IsFloatingKind(ResultKind(op))
  {
  }

  /** Instructions that consume floating-point values but push something
      else are not listed. */
  lemma FloatConsumersExcluded()
    ensures !HasFloatResult(F2I) && !HasFloatResult(F2L) && !HasFloatResult(D2I) && !HasFloatResult(D2L)
    ensures !HasFloatResult(FCMPL) && !HasFloatResult(FCMPG) && !HasFloatResult(DCMPL) && !HasFloatResult(DCMPG)
  {
  }

  // ---------------------------------------------------------------------------
  // Access flags

  type AccessFlags = bv16

  const ACC_NATIVE: AccessFlags := 0x0100
  const ACC_STRICT: AccessFlags := 0x0800

  predicate IsStrictfp(access: AccessFlags) {
    access & ACC_STRICT != 0
  }

  predicate IsNative(access: AccessFlags) {
    access & ACC_NATIVE != 0
  }

  /** Each test reads its own bit only. */
  lemma FlagsIndependent(access: AccessFlags)
    ensures IsStrictfp(access) <==> IsStrictfp(access & !ACC_NATIVE)
    ensures IsNative(access) <==> IsNative(access & !ACC_STRICT)
    ensures IsStrictfp(access | ACC_STRICT) && !IsStrictfp(access & !ACC_STRICT)
    ensures IsNative(access | ACC_NATIVE) && !IsNative(access & !ACC_NATIVE)
  {
  }

  // ---------------------------------------------------------------------------
  // Decoded classes

  /** An instruction as the visitor sees it: a zero-operand instruction
      (`visitInsn`), or a method invocation (`visitMethodInsn`). */
  datatype Insn = Plain(op: Opcode) | Invoke(owner: string, name: string, desc: string)

  datatype MethodDescriptor = MethodDescriptor(name: string, desc: string, access: AccessFlags, code: seq<Insn>)

  /** A decoded class file. `superName` is `None` only for `java/lang/Object`. */
  datatype ClassDescriptor = ClassDescriptor(
    superName: Option<string>,
    interfaces: seq<string>,
    methods: seq<MethodDescriptor>)

  /** The callees the visitor records, one per invocation, in instruction
      order. */
  function CallsIn(code: seq<Insn>): (r: seq<MethodPath>)
    ensures |r| <= |code|
    ensures forall p :: p in r <==> Invoke(p.owner, p.name, p.desc) in code
  {
    if |code| == 0 then []
    else
      var rest := CallsIn(code[1..]);
      assert forall x :: x in code <==> x == code[0] || x in code[1..];
      match code[0]
      case Invoke(o, n, d) => [MethodPath(o, n, d)] + rest
      case Plain(_) => rest
  }

  /** Whether the method body has an instruction with a floating-point
      result; the visitor records such a method once. */
  predicate DoesFpMath(code: seq<Insn>) {
    exists i | 0 <= i < |code| :: code[i].Plain? && HasFloatResult(code[i].op)
  }
}
