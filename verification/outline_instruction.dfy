/** The register-free template instructions an outline is made of: arithmetic binary
    operations, `new-instance`, and method invokes, with their equality, total order,
    input count and hash. */
module OutlineInstructions {
  import opened Wrappers
  import opened JavaInt
  import opened Ordering
  import opened DexItems
  import Sub

  /** Marks, in an argument map, the one temporary register of an outline: the out-value of
      the previous template instruction. */
  const OUTLINE_TEMP: int := -1

  datatype OutlineInstructionType = ADD | SUB | MUL | DIV | REM | INVOKE | NEW

  function TypeOrdinal(t: OutlineInstructionType): nat {
    match t
    case ADD => 0
    case SUB => 1
    case MUL => 2
    case DIV => 3
    case REM => 4
    case INVOKE => 5
    case NEW => 6
  }

  predicate IsBinopType(t: OutlineInstructionType) {
    TypeOrdinal(t) <= 4
  }

  type BinopType = t: OutlineInstructionType | IsBinopType(t) witness ADD

  function NumericOrdinal(t: Sub.NumericType): nat {
    match t
    case BYTE => 0
    case CHAR => 1
    case SHORT => 2
    case INT => 3
    case LONG => 4
    case FLOAT => 5
    case DOUBLE => 6
  }

  /** The invoke kinds of a method invoke, with the ordinals they have among all invoke types. */
  datatype InvokeType = DIRECT | INTERFACE | STATIC | SUPER | VIRTUAL | POLYMORPHIC

  function InvokeTypeOrdinal(t: InvokeType): nat {
    match t
    case DIRECT => 0
    case INTERFACE => 1
    case STATIC => 2
    case SUPER => 3
    case VIRTUAL => 4
    case POLYMORPHIC => 8
  }

  datatype OutlineInstruction =
    | BinOp(binopType: BinopType, numericType: Sub.NumericType)
    | NewInstance(clazz: DexType)
    | Invoke(invokedMethod: DexMethod, invokeType: InvokeType, hasOutValue: bool, proto: Option<DexProto>)

  function TypeOf(i: OutlineInstruction): (r: OutlineInstructionType)
    ensures IsBinopType(r) <==> i.BinOp?
    ensures r == INVOKE <==> i.Invoke?
    ensures r == NEW <==> i.NewInstance?
  {
    match i
    case BinOp(t, _) => t
    case NewInstance(_) => NEW
    case Invoke(_, _, _, _) => INVOKE
  }

  /** Only a polymorphic invoke carries a call-site prototype. */
  predicate WellFormed(i: OutlineInstruction) {
    i.Invoke? ==> (i.proto.Some? <==> i.invokeType == POLYMORPHIC)
  }

  /** The number of in-values an invoke of this shape has in well-formed code: the
      parameters, plus the receiver unless static; a polymorphic call takes its parameters
      from the call-site prototype. */
  function InvokeInValueCount(invokeType: InvokeType, invoked: DexMethod, proto: Option<DexProto>): nat {
    if invokeType == STATIC then |invoked.proto.parameters|
    else if invokeType == POLYMORPHIC && proto.Some? then 1 + |proto.value.parameters|
    else 1 + |invoked.proto.parameters|
  }

  /** Whether the invoke has a receiver: its in-value count differs from its parameter count. */
  predicate HasReceiver(i: OutlineInstruction)
    requires i.Invoke?
  {
    InvokeInValueCount(i.invokeType, i.invokedMethod, i.proto) != |i.invokedMethod.proto.parameters|
  }

  /** `numberOfInputs`: the argument-map entries the instruction consumes. */
  function NumberOfInputs(i: OutlineInstruction): nat {
    match i
    case BinOp(_, _) => 2
    case NewInstance(_) => 0
    case Invoke(m, _, _, _) => (if HasReceiver(i) then 1 else 0) + |m.proto.parameters|
  }

  /** `hasOutValue`: binary operations and `new-instance` always define a value. */
  predicate HasOutValue(i: OutlineInstruction) {
    i.BinOp? || i.NewInstance? || i.hasOutValue
  }

  /** Outside polymorphic calls, the inputs of an invoke are exactly its in-values: the
      receiver for every non-static kind, then the parameters. */
  lemma NumberOfInputsCountsInValues(i: OutlineInstruction)
    requires i.Invoke? && i.invokeType != POLYMORPHIC
    ensures NumberOfInputs(i) == InvokeInValueCount(i.invokeType, i.invokedMethod, i.proto)
    ensures HasReceiver(i) <==> i.invokeType != STATIC
  {
  }

  /** As written, a polymorphic invoke counts its inputs from the invoked method's declared
      parameters. That matches its in-values, which follow the call-site prototype, only when
      the call site has as many parameters as the method or one fewer. */
  lemma PolymorphicInputsAsWritten(i: OutlineInstruction)
    requires i.Invoke? && i.invokeType == POLYMORPHIC && i.proto.Some?
    ensures NumberOfInputs(i) == InvokeInValueCount(i.invokeType, i.invokedMethod, i.proto) <==>
      (|i.proto.value.parameters| == |i.invokedMethod.proto.parameters| ||
       |i.proto.value.parameters| + 1 == |i.invokedMethod.proto.parameters|)
  {
  }

  /** `MethodHandle.invoke(Object[])` called with two `int`s: three in-values, two inputs. */
  function MethodHandleInvoke(): (i: OutlineInstruction) {
    var obj := DexType("Ljava/lang/Object;");
    var mh := DexMethod(DexType("Ljava/lang/invoke/MethodHandle;"),
                        DexProto(obj, [DexType("[Ljava/lang/Object;")]), "invoke");
    Invoke(mh, POLYMORPHIC, false, Some(DexProto(VOID, [DexType("I"), DexType("I")])))
  }

  lemma MethodHandleInvokeMisaligned()
    ensures WellFormed(MethodHandleInvoke())
    ensures NumberOfInputs(MethodHandleInvoke()) == 2
    ensures InvokeInValueCount(POLYMORPHIC, MethodHandleInvoke().invokedMethod, MethodHandleInvoke().proto) == 3
  {
    PolymorphicInputsAsWritten(MethodHandleInvoke());
  }

  /** `numberOfInputs` as intended: one argument-map entry per in-value, so that a
      polymorphic invoke counts the call-site prototype's parameters. */
  function IntendedNumberOfInputs(i: OutlineInstruction): nat {
    match i
    case Invoke(m, k, _, p) => InvokeInValueCount(k, m, p)
    case _ => NumberOfInputs(i)
  }

  /** The corrected count is the in-value count of every invoke, and it differs from the
      count as written only on polymorphic invokes. */
  lemma IntendedNumberOfInputsCountsInValues(i: OutlineInstruction)
    ensures i.Invoke? ==> IntendedNumberOfInputs(i) == InvokeInValueCount(i.invokeType, i.invokedMethod, i.proto)
    ensures !(i.Invoke? && i.invokeType == POLYMORPHIC) ==> IntendedNumberOfInputs(i) == NumberOfInputs(i)
  {
    if i.Invoke? && i.invokeType != POLYMORPHIC {
      NumberOfInputsCountsInValues(i);
    }
  }

  /** `compareTo`: instructions of different classes by type ordinal; two binary operations
      by type, then numeric type; two `new-instance` by class; two invokes by method, invoke
      type, out-value flag, then call-site prototype. */
  function Compare(a: OutlineInstruction, b: OutlineInstruction): int
    requires WellFormed(a) && WellFormed(b)
  {
    match (a, b)
    case (BinOp(t1, n1), BinOp(t2, n2)) =>
      var r := CompareOrdinals(TypeOrdinal(t1), TypeOrdinal(t2));
      if r != 0 then r else CompareOrdinals(NumericOrdinal(n1), NumericOrdinal(n2))
    case (NewInstance(c1), NewInstance(c2)) => CompareTypes(c1, c2)
    case (Invoke(m1, k1, o1, p1), Invoke(m2, k2, o2, p2)) =>
      var r := CompareMethods(m1, m2);
      if r != 0 then r
      else
        var r' := CompareOrdinals(InvokeTypeOrdinal(k1), InvokeTypeOrdinal(k2));
        if r' != 0 then r'
        else
          var r'' := CompareBooleans(o1, o2);
          if r'' != 0 then r''
          else if p1.Some? then CompareProtos(p1.value, p2.value)
          else 0
    case _ => CompareOrdinals(TypeOrdinal(TypeOf(a)), TypeOrdinal(TypeOf(b)))
  }

  lemma NumericOrdinalInjective(a: Sub.NumericType, b: Sub.NumericType)
    ensures NumericOrdinal(a) == NumericOrdinal(b) <==> a == b
  {
  }

  /** `compareTo` is zero exactly on equal instructions, antisymmetric and transitive. */
  lemma CompareIsTotalOrder(a: OutlineInstruction, b: OutlineInstruction, c: OutlineInstruction)
    requires WellFormed(a) && WellFormed(b) && WellFormed(c)
    ensures Compare(a, b) == 0 <==> a == b
    ensures Compare(b, a) == -Compare(a, b)
    ensures Compare(a, b) < 0 && Compare(b, c) < 0 ==> Compare(a, c) < 0
  {
    CompareIsZeroOnlyOnEqual(a, b);
    CompareIsAntisymmetric(a, b);
    if a.Invoke? && b.Invoke? && c.Invoke? {
      InvokeCompareIsTransitive(a, b, c);
    } else if a.NewInstance? && b.NewInstance? && c.NewInstance? {
      CompareTypesIsTotalOrder(a.clazz, b.clazz, c.clazz);
    } else if !(a.BinOp? && b.BinOp? && c.BinOp?) {
      MixedCompareIsTransitive(a, b, c);
    }
  }

  lemma CompareIsZeroOnlyOnEqual(a: OutlineInstruction, b: OutlineInstruction)
    requires WellFormed(a) && WellFormed(b)
    ensures Compare(a, b) == 0 <==> a == b
  {
    if a.BinOp? && b.BinOp? {
      NumericOrdinalInjective(a.numericType, b.numericType);
    } else if a.NewInstance? && b.NewInstance? {
      CompareTypesIsTotalOrder(a.clazz, b.clazz, a.clazz);
    } else if a.Invoke? && b.Invoke? {
      CompareMethodsIsTotalOrder(a.invokedMethod, b.invokedMethod, a.invokedMethod);
      if a.proto.Some? && b.proto.Some? {
        CompareProtosIsTotalOrder(a.proto.value, b.proto.value, a.proto.value);
      }
    }
  }

  lemma CompareIsAntisymmetric(a: OutlineInstruction, b: OutlineInstruction)
    requires WellFormed(a) && WellFormed(b)
    ensures Compare(b, a) == -Compare(a, b)
  {
    if a.NewInstance? && b.NewInstance? {
      CompareTypesIsTotalOrder(a.clazz, b.clazz, a.clazz);
    } else if a.Invoke? && b.Invoke? {
      CompareMethodsIsTotalOrder(a.invokedMethod, b.invokedMethod, a.invokedMethod);
      if a.proto.Some? && b.proto.Some? {
        CompareProtosIsTotalOrder(a.proto.value, b.proto.value, a.proto.value);
      }
    }
  }

  lemma InvokeCompareIsTransitive(a: OutlineInstruction, b: OutlineInstruction, c: OutlineInstruction)
    requires WellFormed(a) && WellFormed(b) && WellFormed(c) && a.Invoke? && b.Invoke? && c.Invoke?
    ensures Compare(a, b) < 0 && Compare(b, c) < 0 ==> Compare(a, c) < 0
  {
    CompareMethodsIsTotalOrder(a.invokedMethod, b.invokedMethod, c.invokedMethod);
    CompareMethodsIsTotalOrder(b.invokedMethod, c.invokedMethod, a.invokedMethod);
    CompareMethodsIsTotalOrder(a.invokedMethod, c.invokedMethod, b.invokedMethod);
    if a.proto.Some? && b.proto.Some? && c.proto.Some? {
      CompareProtosIsTotalOrder(a.proto.value, b.proto.value, c.proto.value);
    }
  }

  /** Instructions of different classes compare by type ordinal alone. */
  lemma MixedCompareIsTransitive(a: OutlineInstruction, b: OutlineInstruction, c: OutlineInstruction)
    requires WellFormed(a) && WellFormed(b) && WellFormed(c)
    requires !(a.Invoke? && b.Invoke? && c.Invoke?) && !(a.NewInstance? && b.NewInstance? && c.NewInstance?)
    requires !(a.BinOp? && b.BinOp? && c.BinOp?)
    ensures Compare(a, b) < 0 && Compare(b, c) < 0 ==> Compare(a, c) < 0
  {
    CompareFollowsTypes(a, b);
    CompareFollowsTypes(b, c);
    CompareFollowsTypes(a, c);
  }

  /** A negative comparison never goes against the type ordinals, and instructions of
      different classes compare by them. */
  lemma CompareFollowsTypes(a: OutlineInstruction, b: OutlineInstruction)
    requires WellFormed(a) && WellFormed(b)
    ensures Compare(a, b) < 0 ==> TypeOrdinal(TypeOf(a)) <= TypeOrdinal(TypeOf(b))
    ensures a.BinOp? != b.BinOp? || a.NewInstance? != b.NewInstance? ==>
      (Compare(a, b) < 0 <==> TypeOrdinal(TypeOf(a)) < TypeOrdinal(TypeOf(b)))
  {
  }

  /** Hash functions of the items an instruction hash combines. */
  datatype ItemHashes = ItemHashes(
    typeHash: DexType -> int, methodHash: DexMethod -> int, protoHash: DexProto -> int,
    invokeTypeHash: InvokeType -> int)

  function BooleanHash(b: bool): int {
    if b then 1231 else 1237
  }

  /** `hashCode`, in 32-bit arithmetic. */
  function Hash(i: OutlineInstruction, h: ItemHashes): (r: int)
    ensures IsInt32(r)
  {
    match i
    case BinOp(t, n) => Wrap32(TypeOrdinal(t) * 7 + NumericOrdinal(n))
    case NewInstance(c) => Wrap32(TypeOrdinal(NEW) * 7 + h.typeHash(c))
    case Invoke(m, k, o, p) =>
      Wrap32(TypeOrdinal(INVOKE) * 7 + h.methodHash(m) * 13 + h.invokeTypeHash(k) + BooleanHash(o) +
             (if p.Some? then h.protoHash(p.value) else 0))
  }
}
