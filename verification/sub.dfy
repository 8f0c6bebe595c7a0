/** The IR `Sub` instruction: constant folding, which operands need a register, and
    which DEX instruction an `int` subtraction is emitted as. */
module Sub {
  import opened Wrappers
  import opened JavaInt

  datatype NumericType = BYTE | CHAR | SHORT | INT | LONG | FLOAT | DOUBLE

  /** An IR value: its identity, and the number it holds when a constant defines it. */
  datatype Value = Value(id: nat, constant: Option<int>)

  datatype SubInstr = SubInstr(ntype: NumericType, left: Value, right: Value, dest: nat)

  /** Just enough of the instruction hierarchy to tell a `Sub` from anything else. */
  datatype Instruction = SubOp(sub: SubInstr) | OtherOp(opcode: nat)

  const U4BIT_MAX: int := 15
  const U8BIT_MAX: int := 255

  predicate Is8Bit(c: int) { -128 <= c <= 127 }

  predicate Is16Bit(c: int) { -32768 <= c <= 32767 }

  predicate IsCommutative(s: SubInstr) { false }

  /** Folding two `int` constants. */
  function FoldIntegers(left: int, right: int): (r: int)
    requires IsInt32(left) && IsInt32(right)
    ensures IsInt32(r)
    ensures (left - right - r) % TWO_32 == 0
  {
    Wrap32(left - right)
  }

  /** Folding two `long` constants. */
  function FoldLongs(left: int, right: int): (r: int)
    requires IsInt64(left) && IsInt64(right)
    ensures IsInt64(r)
    ensures (left - right - r) % TWO_64 == 0
  {
    Wrap64(left - right)
  }

  /** Adding the right operand back to a folded `int` difference gives the left operand. */
  lemma FoldIntegersRoundTrip(left: int, right: int)
    requires IsInt32(left) && IsInt32(right)
    ensures Wrap32(FoldIntegers(left, right) + right) == left
  {
    var d := FoldIntegers(left, right);
    assert (d + right - left) % TWO_32 == 0 by {
      assert d + right - left == -(left - right - d);
    }
    Wrap32Congruent(d + right, left);
  }

  lemma FoldLongsRoundTrip(left: int, right: int)
    requires IsInt64(left) && IsInt64(right)
    ensures Wrap64(FoldLongs(left, right) + right) == left
  {
    var d := FoldLongs(left, right);
    assert (d + right - left) % TWO_64 == 0 by {
      assert d + right - left == -(left - right - d);
    }
    Wrap64Congruent(d + right, left);
  }

  /** Subtraction is not commutative: there are operands whose swap changes the folded value. */
  lemma SubIsNotCommutative(s: SubInstr)
    ensures !IsCommutative(s)
    ensures FoldIntegers(1, 0) != FoldIntegers(0, 1)
  {
  }

  /** A `rsub`/`add` literal can stand in for the right operand: its negation is 16-bit. */
  predicate NegativeFitsInDexInstruction(s: SubInstr, v: Value) {
    s.ntype == INT && v.constant.Some? && Is16Bit(-v.constant.value)
  }

  /** What the inherited `fitsInDexInstruction` is taken to guarantee: a value that fits
      is a constant of at most 16 bits. The predicate itself is a parameter. */
  ghost predicate FitsOnlyLiterals(fits: Value -> bool) {
    forall v :: fits(v) ==> v.constant.Some? && Is16Bit(v.constant.value)
  }

  predicate NeedsValueInRegister(s: SubInstr, v: Value, fits: Value -> bool)
    requires v == s.left || v == s.right
  {
    if s.left == s.right then true
    else if v == s.left then !fits(v)
    else !NegativeFitsInDexInstruction(s, v) || fits(s.left)
  }

  /** The operands never both become literals, and one value used twice stays in a register. */
  lemma AtMostOneOperandInlined(s: SubInstr, fits: Value -> bool)
    ensures NeedsValueInRegister(s, s.left, fits) || NeedsValueInRegister(s, s.right, fits)
    ensures s.left == s.right ==>
      NeedsValueInRegister(s, s.left, fits) && NeedsValueInRegister(s, s.right, fits)
    ensures s.left != s.right ==> (NeedsValueInRegister(s, s.left, fits) <==> !fits(s.left))
    ensures s.left != s.right ==>
      (!NeedsValueInRegister(s, s.right, fits) <==>
         NegativeFitsInDexInstruction(s, s.right) && !fits(s.left))
  {
  }

  /** The DEX instructions an `int` subtraction is emitted as; `Generic` stands for the
      two-address and non-`int` forms emitted by the shared arithmetic code. */
  datatype DexInstr =
    | RsubIntLit8(dest: nat, src: nat, lit: int)
    | RsubInt(dest: nat, src: nat, lit: int)
    | AddIntLit8(dest: nat, src: nat, lit: int)
    | AddIntLit16(dest: nat, src: nat, lit: int)
    | SubInt(dest: nat, a: nat, b: nat)
    | Generic

  function BuildDex(s: SubInstr, fits: Value -> bool, twoAddr: bool): (r: DexInstr)
    requires FitsOnlyLiterals(fits)
    ensures (twoAddr || s.ntype != INT) <==> r.Generic?
    ensures r.RsubIntLit8? ==> Is8Bit(r.lit)
    ensures r.AddIntLit8? ==> Is8Bit(r.lit)
    ensures r.RsubInt? || r.AddIntLit16? ==> Is16Bit(r.lit)
    ensures !r.Generic? ==> r.dest == s.dest
    ensures !twoAddr && s.ntype == INT ==>
      ((r.RsubIntLit8? || r.RsubInt?) <==> !NeedsValueInRegister(s, s.left, fits))
    ensures !twoAddr && s.ntype == INT ==>
      ((r.AddIntLit8? || r.AddIntLit16?) <==>
         NeedsValueInRegister(s, s.left, fits) && !NeedsValueInRegister(s, s.right, fits))
    ensures r.RsubIntLit8? <==>
      !twoAddr && s.ntype == INT && !NeedsValueInRegister(s, s.left, fits) &&
      s.left.constant.Some? && Is8Bit(s.left.constant.value)
    ensures r.AddIntLit8? <==>
      !twoAddr && s.ntype == INT && NeedsValueInRegister(s, s.left, fits) &&
      !NeedsValueInRegister(s, s.right, fits) &&
      s.right.constant.Some? && Is8Bit(-s.right.constant.value)
    ensures (r.RsubIntLit8? || r.RsubInt?) ==>
      r.src == s.right.id && s.left.constant.Some? && r.lit == s.left.constant.value
    ensures (r.AddIntLit8? || r.AddIntLit16?) ==>
      r.src == s.left.id && s.right.constant.Some? && r.lit == -s.right.constant.value
    ensures r.SubInt? ==> r.a == s.left.id && r.b == s.right.id
  {
    if twoAddr || s.ntype != INT then Generic
    else if !NeedsValueInRegister(s, s.left, fits) then
      var c := s.left.constant.value;
      if Is8Bit(c) then RsubIntLit8(s.dest, s.right.id, c) else RsubInt(s.dest, s.right.id, c)
    else if !NeedsValueInRegister(s, s.right, fits) then
      var c := s.right.constant.value;
      if Is8Bit(-c) then AddIntLit8(s.dest, s.left.id, -c) else AddIntLit16(s.dest, s.left.id, -c)
    else SubInt(s.dest, s.left.id, s.right.id)
  }

  /** Dalvik semantics of the non-generic instructions over a register file. */
  function Exec(i: DexInstr, regs: nat -> int): int
    requires !i.Generic?
  {
    match i
    case RsubIntLit8(_, src, lit) => Wrap32(lit - regs(src))
    case RsubInt(_, src, lit) => Wrap32(lit - regs(src))
    case AddIntLit8(_, src, lit) => Wrap32(regs(src) + lit)
    case AddIntLit16(_, src, lit) => Wrap32(regs(src) + lit)
    case SubInt(_, a, b) => Wrap32(regs(a) - regs(b))
  }

  /** The register of a value holds the value, and the constant when there is one. */
  predicate Holds(regs: nat -> int, v: Value) {
    IsInt32(regs(v.id)) && (v.constant.Some? ==> regs(v.id) == v.constant.value)
  }

  /** Whichever instruction is chosen, it computes the folded difference of the operands. */
  lemma BuildDexComputesDifference(s: SubInstr, fits: Value -> bool, regs: nat -> int)
    requires FitsOnlyLiterals(fits) && s.ntype == INT
    requires Holds(regs, s.left) && Holds(regs, s.right)
    ensures Exec(BuildDex(s, fits, false), regs) == FoldIntegers(regs(s.left.id), regs(s.right.id))
  {
  }

  function MaxInOutValueRegisterSize(s: SubInstr, fits: Value -> bool): (r: int)
    requires FitsOnlyLiterals(fits)
    ensures r == U8BIT_MAX || r == U4BIT_MAX
  {
    if !NeedsValueInRegister(s, s.left, fits) then
      if Is8Bit(s.left.constant.value) then U8BIT_MAX else U4BIT_MAX
    else if !NeedsValueInRegister(s, s.right, fits) then
      if Is8Bit(-s.right.constant.value) then U8BIT_MAX else U4BIT_MAX
    else U8BIT_MAX
  }

  /** The 4-bit register limit applies exactly when a 16-bit literal form is emitted. */
  lemma RegisterLimitMatchesEncoding(s: SubInstr, fits: Value -> bool)
    requires FitsOnlyLiterals(fits) && s.ntype == INT
    ensures MaxInOutValueRegisterSize(s, fits) == U4BIT_MAX <==>
      (BuildDex(s, fits, false).RsubInt? || BuildDex(s, fits, false).AddIntLit16?)
  {
  }

  predicate IdenticalNonValueNonPositionParts(s: SubInstr, other: Instruction) {
    other.SubOp? && other.sub.ntype == s.ntype
  }

  /** Restricted to `Sub` instructions, the relation is an equivalence on numeric types. */
  lemma IdenticalPartsIsEquivalence(a: SubInstr, b: SubInstr, c: SubInstr, o: Instruction)
    ensures IdenticalNonValueNonPositionParts(a, SubOp(a))
    ensures IdenticalNonValueNonPositionParts(a, SubOp(b)) ==> IdenticalNonValueNonPositionParts(b, SubOp(a))
    ensures IdenticalNonValueNonPositionParts(a, SubOp(b)) && IdenticalNonValueNonPositionParts(b, SubOp(c))
      ==> IdenticalNonValueNonPositionParts(a, SubOp(c))
    ensures o.OtherOp? ==> !IdenticalNonValueNonPositionParts(a, o)
  {
  }
}
