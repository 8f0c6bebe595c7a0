/** The window scanner that spots outline candidates in a basic block: a state machine
    stepping over the block's instructions, growing a window while instructions can be
    included and emitting `(start, end, outline)` when the window closes. */
module OutlineSpotter {
  import opened Wrappers
  import opened DexItems
  import opened OutlineInstructions
  import opened Outlines
  import Sub

  /** The most argument registers an outline may take, so that its call needs no range
      invoke. */
  const MAX_IN_SIZE: nat := 5

  /** An SSA value: its identity, the registers it needs, how many instructions and phis
      use it, and whether its type may be passed to an outline. */
  datatype Value = Value(id: nat, requiredRegisters: nat, numberOfAllUsers: nat, supportedArgumentType: bool)

  /** What the scanner needs to know of an instruction. An invoke carries the argument
      type the outline would give each of its in-values. */
  datatype InstructionKind =
    | ConstInstruction
    | AssumeInstruction
    | ArithmeticBinop(binopType: BinopType, numericType: Sub.NumericType)
    | NewInstanceInstruction(clazz: DexType)
    | InvokeMethodInstruction(
        invokeType: InvokeType, invokedMethod: DexMethod, callSiteProto: Option<DexProto>,
        isConstructor: bool, alwaysMovable: bool, argumentTypes: seq<DexType>)
    | OtherInstruction

  datatype Instruction = Instruction(kind: InstructionKind, inValues: seq<Value>, outValue: Option<Value>)

  predicate IsConst(i: Instruction) {
    i.kind.ConstInstruction?
  }

  /** The instructions that become template instructions of an outline. */
  predicate IsTemplated(i: Instruction) {
    i.kind.ArithmeticBinop? || i.kind.NewInstanceInstruction? || i.kind.InvokeMethodInstruction?
  }

  predicate IsCommutative(t: BinopType) {
    t == ADD || t == MUL
  }

  predicate WellFormedInstruction(i: Instruction) {
    match i.kind
    case ConstInstruction => i.inValues == []
    case ArithmeticBinop(_, _) => |i.inValues| == 2
    case NewInstanceInstruction(_) => i.inValues == [] && i.outValue.Some?
    case InvokeMethodInstruction(k, m, p, _, _, ts) =>
      (p.Some? <==> k == POLYMORPHIC) && |ts| == |i.inValues| == InvokeInValueCount(k, m, p)
    case _ => true
  }

  predicate WellFormedCode(code: seq<Instruction>) {
    forall k :: 0 <= k < |code| ==> WellFormedInstruction(code[k])
  }

  /** `OutlineInstruction.fromInstruction`. */
  function TemplateOf(i: Instruction): (t: OutlineInstruction)
    requires IsTemplated(i) && WellFormedInstruction(i)
    ensures OutlineInstructions.WellFormed(t)
  {
    match i.kind
    case ArithmeticBinop(t, n) => BinOp(t, n)
    case NewInstanceInstruction(c) => NewInstance(c)
    case InvokeMethodInstruction(k, m, p, _, _, _) => Invoke(m, k, i.outValue.Some?, p)
  }

  /** The template instructions of the instructions in `[start, end[`, as the `Outline`
      constructor collects them: constants and assumes contribute nothing. */
  function Templates(code: seq<Instruction>, start: nat, end: nat): (r: seq<OutlineInstruction>)
    requires start <= end <= |code| && WellFormedCode(code)
    ensures forall k :: 0 <= k < |r| ==> OutlineInstructions.WellFormed(r[k])
    decreases end - start
  {
    if start == end then []
    else Templates(code, start, end - 1) + (if IsTemplated(code[end - 1]) then [TemplateOf(code[end - 1])] else [])
  }

  /** The argument-map entries an included instruction contributes: one per in-value of a
      binary operation or invoke. */
  function InputCount(i: Instruction): nat {
    if i.kind.ArithmeticBinop? || i.kind.InvokeMethodInstruction? then |i.inValues| else 0
  }

  function SumInputs(code: seq<Instruction>, start: nat, end: nat): nat
    requires start <= end <= |code|
    decreases end - start
  {
    if start == end then 0 else SumInputs(code, start, end - 1) + InputCount(code[end - 1])
  }

  function SumNumberOfInputs(ts: seq<OutlineInstruction>): nat
    decreases |ts|
  {
    if ts == [] then 0 else SumNumberOfInputs(ts[..|ts| - 1]) + NumberOfInputs(ts[|ts| - 1])
  }

  function SumRegisters(vs: seq<Value>): nat
    decreases |vs|
  {
    if vs == [] then 0 else SumRegisters(vs[..|vs| - 1]) + vs[|vs| - 1].requiredRegisters
  }

  /** How the argument registers are accounted for. `AsWritten` adds the registers of new
      arguments only for invokes with a receiver and checks the budget only for invokes;
      `Intended` counts every new argument and checks binary operations too. */
  datatype RegisterBudget = AsWritten | Intended

  datatype OutlineOptions = OutlineOptions(minSize: nat, maxSize: nat)

  /** The scanner state. `pendingNewInstanceIndex` is `-1` when no `new-instance` awaits its
      constructor call. */
  datatype SpotterState = SpotterState(
    code: seq<Instruction>,
    start: nat,
    index: nat,
    actualInstructions: nat,
    arguments: seq<Value>,
    argumentTypes: seq<DexType>,
    argumentsMap: seq<int>,
    argumentRegisters: nat,
    returnType: DexType,
    returnValue: Option<Value>,
    returnValueUsersLeft: int,
    pendingNewInstanceIndex: int)

  /** A spotted candidate: the window `[start, end[`, its outline, and the values the
      outline would be called with. */
  datatype Candidate = Candidate(start: nat, end: nat, outline: Outline, arguments: seq<Value>)

  /** `reset`: an empty window at `startIndex`. */
  function Reset(s: SpotterState, startIndex: nat): (r: SpotterState)
    ensures r.code == s.code && r.start == r.index == startIndex
    ensures r.actualInstructions == 0 && r.arguments == [] && r.argumentsMap == [] && r.argumentRegisters == 0
    ensures r.returnValue.None? && r.returnType == VOID && r.pendingNewInstanceIndex == -1
  {
    SpotterState(s.code, startIndex, startIndex, 0, [], [], [], 0, VOID, None, 0, -1)
  }

  function Start(code: seq<Instruction>): SpotterState {
    SpotterState(code, 0, 0, 0, [], [], [], 0, VOID, None, 0, -1)
  }

  /** `orderedInValues`: for a commutative operation using the active return value as its
      right operand, the operands swapped so the return value comes first. */
  function OrderedInValues(i: Instruction, returnValue: Option<Value>): (r: seq<Value>)
    ensures |r| == |i.inValues| && IsOperandReordering(i.inValues, r)
    ensures r == i.inValues || (i.kind.ArithmeticBinop? && IsCommutative(i.kind.binopType) &&
                                 |i.inValues| >= 2 && returnValue == Some(i.inValues[1]))
    ensures (|r| >= 2 && returnValue == Some(i.inValues[1]) && i.kind.ArithmeticBinop? &&
             IsCommutative(i.kind.binopType)) ==> r[0] == i.inValues[1]
  {
    if i.kind.ArithmeticBinop? && IsCommutative(i.kind.binopType) && |i.inValues| >= 2 &&
       returnValue == Some(i.inValues[1])
    then
      assert i.inValues == [i.inValues[0], i.inValues[1]] + i.inValues[2..];
      [i.inValues[1], i.inValues[0]] + i.inValues[2..]
    else i.inValues
  }

  /** `b` is `a`, or `a` with its first two operands swapped. */
  predicate IsOperandReordering(a: seq<Value>, b: seq<Value>) {
    b == a || (|a| >= 2 && b == [a[1], a[0]] + a[2..])
  }

  /** A reordering of operands is a permutation. */
  lemma ReorderingIsPermutation(a: seq<Value>, b: seq<Value>)
    requires IsOperandReordering(a, b)
    ensures |b| == |a| && multiset(b) == multiset(a)
  {
    if b != a {
      assert a == [a[0], a[1]] + a[2..];
    }
  }

  /** Reordering operands twice is a reordering. */
  lemma ReorderingTransitive(a: seq<Value>, b: seq<Value>, c: seq<Value>)
    requires IsOperandReordering(a, b) && IsOperandReordering(b, c)
    ensures IsOperandReordering(a, c)
  {
    if b != a && c != b {
      assert c == [b[1], b[0]] + b[2..];
      assert a == [a[0], a[1]] + a[2..];
      assert c == a;
    }
  }

  function CountUses(vs: seq<Value>, v: Value): (r: nat)
    ensures r <= |vs|
    ensures r == multiset(vs)[v]
    decreases |vs|
  {
    if vs == [] then 0
    else
      assert vs == [vs[0]] + vs[1..];
      (if vs[0] == v then 1 else 0) + CountUses(vs[1..], v)
  }

  /** The registers the in-values from `i` on add to the outline: none for the return
      value, none for a receiver already among the arguments when `reuseFirst`, the
      value's own registers otherwise. */
  function RegistersFrom(vs: seq<Value>, i: nat, returnValue: Option<Value>, reuseFirst: bool): nat
    requires i <= |vs|
    decreases |vs| - i
  {
    if i == |vs| then 0
    else
      (if Some(vs[i]) == returnValue || (reuseFirst && i == 0) then 0 else vs[i].requiredRegisters) +
      RegistersFrom(vs, i + 1, returnValue, reuseFirst)
  }

  predicate AllSupportedFrom(vs: seq<Value>, i: nat, returnValue: Option<Value>)
    requires i <= |vs|
  {
    forall k :: i <= k < |vs| ==> Some(vs[k]) == returnValue || vs[k].supportedArgumentType
  }

  /** Whether the first in-value of an invoke with a receiver is an argument already. */
  predicate ReusesReceiver(vs: seq<Value>, arguments: seq<Value>) {
    |vs| > 0 && vs[0] in arguments
  }

  /** The nearest instruction before `index` in the window that is not a constant. */
  function PreviousNonConst(code: seq<Instruction>, start: nat, index: nat): (r: nat)
    requires start < index <= |code| && !IsConst(code[start])
    ensures start <= r < index && !IsConst(code[r])
    ensures forall k :: r < k < index ==> IsConst(code[k])
    decreases index
  {
    if !IsConst(code[index - 1]) then index - 1 else PreviousNonConst(code, start, index - 1)
  }

  /** `canIncludeInstruction` for an instruction that is neither a constant nor an assume:
      whether it may join the window, and the pending `new-instance` index afterwards. */
  function CanInclude(s: SpotterState, instr: Instruction, mode: RegisterBudget): (r: (bool, int))
    requires WellFormedInstruction(instr) && s.start <= s.index <= |s.code|
    requires s.start < s.index ==> !IsConst(s.code[s.start])
    ensures !r.0 ==> r.1 == s.pendingNewInstanceIndex
    ensures r.1 == s.pendingNewInstanceIndex || r.1 == -1 || (r.1 == s.index && instr.kind.NewInstanceInstruction?)
    ensures r.0 ==> IsTemplated(instr)
    ensures r.0 && instr.outValue.Some? && s.returnValue.Some? ==>
      s.returnValueUsersLeft <= CountUses(instr.inValues, s.returnValue.value)
    ensures r.0 && instr.outValue.Some? && s.returnValue.None? ==> s.returnValueUsersLeft <= 0
    ensures r.0 && instr.kind.InvokeMethodInstruction? ==>
      instr.kind.alwaysMovable && AllSupportedFrom(instr.inValues, 0, s.returnValue) &&
      s.argumentRegisters +
        RegistersFrom(instr.inValues, 0, s.returnValue,
          instr.kind.invokeType != STATIC && ReusesReceiver(instr.inValues, s.arguments)) <= MAX_IN_SIZE
    ensures r.0 && instr.kind.ArithmeticBinop? && mode == Intended ==>
      s.argumentRegisters + RegistersFrom(OrderedInValues(instr, s.returnValue), 0, s.returnValue, false) <= MAX_IN_SIZE
    ensures r.0 && instr.kind.InvokeMethodInstruction? && instr.kind.isConstructor ==>
      s.start < s.index && r.1 == -1 &&
      var p := PreviousNonConst(s.code, s.start, s.index);
      s.code[p].kind.NewInstanceInstruction? && s.code[p].outValue == s.returnValue
    ensures r.0 && instr.kind.NewInstanceInstruction? ==>
      r.1 == if instr.outValue.value.numberOfAllUsers > 0 then s.index else s.pendingNewInstanceIndex
  {
    var usersLeftIfIncluded :=
      if s.returnValue.Some? then s.returnValueUsersLeft - CountUses(instr.inValues, s.returnValue.value)
      else s.returnValueUsersLeft;
    var pending := s.pendingNewInstanceIndex;
    if instr.outValue.Some? && usersLeftIfIncluded > 0 then (false, pending)
    else
      match instr.kind
      case NewInstanceInstruction(_) =>
        (true, if instr.outValue.value.numberOfAllUsers > 0 then s.index else pending)
      case ArithmeticBinop(_, _) =>
        if mode == AsWritten then (true, pending)
        else
          var regs := s.argumentRegisters + RegistersFrom(OrderedInValues(instr, s.returnValue), 0, s.returnValue, false);
          (regs <= MAX_IN_SIZE, pending)
      case InvokeMethodInstruction(k, _, _, ctor, always, _) =>
        if !always then (false, pending)
        else
          var vs := OrderedInValues(instr, s.returnValue);
          if !AllSupportedFrom(vs, 0, s.returnValue) then (false, pending)
          else if s.argumentRegisters + RegistersFrom(vs, 0, s.returnValue, k != STATIC && ReusesReceiver(vs, s.arguments)) > MAX_IN_SIZE
          then (false, pending)
          else if ctor then
            if s.start == s.index then (false, pending)
            else
              var p := PreviousNonConst(s.code, s.start, s.index);
              if !s.code[p].kind.NewInstanceInstruction? || s.code[p].outValue != s.returnValue then (false, pending)
              else (true, -1)
          else (true, pending)
      case _ => (false, pending)
  }

  /** The users-left bookkeeping of `includeInstruction`: each use of the return value
      counts down its users, and the value is dropped once none are left. */
  function DropUses(vs: seq<Value>, i: nat, rv: Option<Value>, left: int, rt: DexType): (r: (Option<Value>, int, DexType))
    requires i <= |vs|
    requires rv.Some? ==> left > 0
    ensures r.0.Some? ==> r.1 > 0 && r.0 == rv && r.2 == rt
    ensures rv.Some? && left <= CountUses(vs[i..], rv.value) ==> r.0.None?
    ensures r.0.None? ==> r.2 == VOID || (rv.None? && r.2 == rt)
    decreases |vs| - i
  {
    if i == |vs| then (rv, left, rt)
    else
      assert vs[i..] == [vs[i]] + vs[i + 1..];
      var left' := if rv.Some? && vs[i] == rv.value then left - 1 else left;
      if left' == 0 then DropUses(vs, i + 1, None, 0, VOID)
      else DropUses(vs, i + 1, rv, left', rt)
  }

  /** `updateReturnValueState`: track the new out-value only when it has users. */
  function UpdateReturnValue(s: SpotterState, v: Value, t: DexType): (r: SpotterState)
    ensures r == s.(returnValue := r.returnValue, returnValueUsersLeft := r.returnValueUsersLeft, returnType := r.returnType)
    ensures r.returnValue.Some? <==> v.numberOfAllUsers > 0
    ensures r.returnValue.Some? ==> r.returnValue == Some(v) && r.returnValueUsersLeft > 0 && r.returnType == t
  {
    if v.numberOfAllUsers == 0 then s.(returnValue := None, returnValueUsersLeft := 0, returnType := VOID)
    else s.(returnValue := Some(v), returnValueUsersLeft := v.numberOfAllUsers, returnType := t)
  }

  predicate MapEntriesValid(m: seq<int>, argumentCount: nat) {
    forall k :: 0 <= k < |m| ==> m[k] == OUTLINE_TEMP || 0 <= m[k] < argumentCount
  }

  /** The number of entries of `m` that introduced a new argument. */
  function FreshCount(m: seq<int>): nat
    decreases |m|
  {
    if m == [] then 0
    else
      var n := FreshCount(m[..|m| - 1]);
      if m[|m| - 1] == n then n + 1 else n
  }

  /** Arguments are numbered in order of first use: each entry is the temporary, an
      argument introduced before, or the next new argument. */
  predicate IncrementalMap(m: seq<int>)
    decreases |m|
  {
    m == [] ||
    (IncrementalMap(m[..|m| - 1]) &&
     (m[|m| - 1] == OUTLINE_TEMP || 0 <= m[|m| - 1] <= FreshCount(m[..|m| - 1])))
  }

  /** The map and the argument list grow together. */
  predicate ArgumentsNumbered(s: SpotterState) {
    IncrementalMap(s.argumentsMap) && FreshCount(s.argumentsMap) == |s.arguments|
  }

  lemma IncrementalMapAppend(m: seq<int>, e: int)
    requires IncrementalMap(m) && (e == OUTLINE_TEMP || 0 <= e <= FreshCount(m))
    ensures IncrementalMap(m + [e])
    ensures FreshCount(m + [e]) == FreshCount(m) + (if e == FreshCount(m) then 1 else 0)
  {
    assert (m + [e])[..|m|] == m;
  }

  /** Every entry of an incremental map is the temporary or an argument it introduced. */
  lemma {:induction false} IncrementalMapEntriesValid(m: seq<int>)
    requires IncrementalMap(m)
    ensures MapEntriesValid(m, FreshCount(m))
    decreases |m|
  {
    if m != [] {
      var p := m[..|m| - 1];
      IncrementalMapEntriesValid(p);
      forall k | 0 <= k < |m| ensures m[k] == OUTLINE_TEMP || 0 <= m[k] < FreshCount(m) {
        if k < |p| {
          assert m[k] == p[k];
        }
      }
    }
  }

  /** The same instructions, up to the order of their in-values. */
  predicate SameUpToOperandOrder(c1: seq<Instruction>, c2: seq<Instruction>) {
    |c1| == |c2| &&
    forall k :: 0 <= k < |c1| ==>
      c2[k].kind == c1[k].kind && c2[k].outValue == c1[k].outValue &&
      IsOperandReordering(c1[k].inValues, c2[k].inValues)
  }

  /** Kinds a window may hold: constants, assumes and instructions with a template. */
  predicate WindowKinds(code: seq<Instruction>, start: nat, end: nat)
    requires start <= end <= |code|
  {
    forall k :: start <= k < end ==> IsConst(code[k]) || code[k].kind.AssumeInstruction? || IsTemplated(code[k])
  }

  function ArgumentTypeAt(kind: InstructionKind, i: nat): DexType {
    if kind.InvokeMethodInstruction? && i < |kind.argumentTypes| then kind.argumentTypes[i]
    else if kind.ArithmeticBinop? then DexTypeFor(kind.numericType)
    else VOID
  }

  /** One in-value of the argument loop of `includeInstruction`: the previous return value
      maps to the temporary register; a receiver that is an argument already is reused;
      any other in-value becomes a new argument. */
  function AddArgument(
    s: SpotterState, v: Value, i: nat, prev: Option<Value>, kind: InstructionKind, mode: RegisterBudget)
    : (r: SpotterState)
    requires |s.arguments| == |s.argumentTypes| && MapEntriesValid(s.argumentsMap, |s.arguments|)
    ensures r == s.(arguments := r.arguments, argumentTypes := r.argumentTypes, argumentsMap := r.argumentsMap,
                    argumentRegisters := r.argumentRegisters)
    ensures |r.arguments| == |r.argumentTypes| && MapEntriesValid(r.argumentsMap, |r.arguments|)
    ensures |r.argumentsMap| == |s.argumentsMap| + 1 && r.argumentsMap[..|s.argumentsMap|] == s.argumentsMap
    ensures r.arguments == s.arguments || r.arguments == s.arguments + [v]
    ensures r.argumentsMap[|s.argumentsMap|] == OUTLINE_TEMP <==> Some(v) == prev
    ensures r.argumentsMap[|s.argumentsMap|] != OUTLINE_TEMP ==> r.arguments[r.argumentsMap[|s.argumentsMap|]] == v
  {
    var receiverKind := kind.InvokeMethodInstruction? && kind.invokeType != STATIC;
    if Some(v) == prev then s.(argumentsMap := s.argumentsMap + [OUTLINE_TEMP])
    else if receiverKind && i == 0 && v in s.arguments then
      s.(argumentsMap := s.argumentsMap + [IndexOf(s.arguments, v)])
    else
      var regs := if receiverKind || mode == Intended then v.requiredRegisters else 0;
      s.(arguments := s.arguments + [v], argumentTypes := s.argumentTypes + [ArgumentTypeAt(kind, i)],
         argumentsMap := s.argumentsMap + [|s.argumentTypes|], argumentRegisters := s.argumentRegisters + regs)
  }

  /** The argument loop of `includeInstruction` from in-value `i`. */
  function AddArguments(
    s: SpotterState, vs: seq<Value>, i: nat, prev: Option<Value>, kind: InstructionKind, mode: RegisterBudget)
    : (r: SpotterState)
    requires i <= |vs| && |s.arguments| == |s.argumentTypes|
    requires MapEntriesValid(s.argumentsMap, |s.arguments|)
    ensures r == s.(arguments := r.arguments, argumentTypes := r.argumentTypes, argumentsMap := r.argumentsMap,
                    argumentRegisters := r.argumentRegisters)
    ensures |r.arguments| == |r.argumentTypes| && MapEntriesValid(r.argumentsMap, |r.arguments|)
    ensures |r.argumentsMap| == |s.argumentsMap| + |vs| - i
    decreases |vs| - i
  {
    if i == |vs| then s
    else AddArguments(AddArgument(s, vs[i], i, prev, kind, mode), vs, i + 1, prev, kind, mode)
  }

  /** The index of the first occurrence of `v` in `vs`. */
  function IndexOf(vs: seq<Value>, v: Value): (r: nat)
    requires v in vs
    ensures r < |vs| && vs[r] == v && forall k :: 0 <= k < r ==> vs[k] != v
    decreases |vs|
  {
    if vs[0] == v then 0 else 1 + IndexOf(vs[1..], v)
  }

  /** The start of `includeInstruction`: the in-values of the instruction at `s.index`
      reordered in the code, and one user of the previous return value counted down per
      use. */
  function UseOperands(s: SpotterState): (r: SpotterState)
    requires s.index < |s.code|
    requires s.returnValue.Some? ==> s.returnValueUsersLeft > 0
    ensures r == s.(code := r.code, returnValue := r.returnValue, returnValueUsersLeft := r.returnValueUsersLeft,
                    returnType := r.returnType)
    ensures |r.code| == |s.code| && forall k :: 0 <= k < |s.code| && k != s.index ==> r.code[k] == s.code[k]
    ensures r.code[s.index] == s.code[s.index].(inValues := OrderedInValues(s.code[s.index], s.returnValue))
    ensures r.returnValue.Some? ==> r.returnValueUsersLeft > 0 && r.returnValue == s.returnValue
  {
    var instr := s.code[s.index];
    var vs := OrderedInValues(instr, s.returnValue);
    var dropped := if s.returnValue.Some? then DropUses(vs, 0, s.returnValue, s.returnValueUsersLeft, s.returnType)
                   else (s.returnValue, s.returnValueUsersLeft, s.returnType);
    s.(code := s.code[s.index := instr.(inValues := vs)],
       returnValue := dropped.0, returnValueUsersLeft := dropped.1, returnType := dropped.2)
  }

  /** `includeInstruction` for the instruction at `s.index`, which has passed the checks;
      its in-values are reordered in the code itself. */
  function IncludeInstruction(s: SpotterState, mode: RegisterBudget): (r: SpotterState)
    requires s.index < |s.code| && WellFormedInstruction(s.code[s.index])
    requires |s.arguments| == |s.argumentTypes| && MapEntriesValid(s.argumentsMap, |s.arguments|)
    requires s.returnValue.Some? ==> s.returnValueUsersLeft > 0
    ensures |r.code| == |s.code| && r.start == s.start && r.index == s.index
    ensures r.actualInstructions == s.actualInstructions && r.pendingNewInstanceIndex == s.pendingNewInstanceIndex
    ensures forall k :: 0 <= k < |s.code| && k != s.index ==> r.code[k] == s.code[k]
    ensures r.code[s.index].kind == s.code[s.index].kind && r.code[s.index].outValue == s.code[s.index].outValue
    ensures IsOperandReordering(s.code[s.index].inValues, r.code[s.index].inValues)
    ensures |r.code[s.index].inValues| == |s.code[s.index].inValues|
    ensures WellFormedInstruction(r.code[s.index])
    ensures |r.arguments| == |r.argumentTypes| && MapEntriesValid(r.argumentsMap, |r.arguments|)
    ensures |r.argumentsMap| == |s.argumentsMap| + InputCount(s.code[s.index])
    ensures r.returnValue.Some? ==> r.returnValueUsersLeft > 0
  {
    var instr := s.code[s.index];
    if instr.kind.AssumeInstruction? then s
    else
      var vs := OrderedInValues(instr, s.returnValue);
      var s1 := UseOperands(s);
      if instr.kind.NewInstanceInstruction? then UpdateReturnValue(s1, instr.outValue.value, instr.kind.clazz)
      else
        var s2 := if instr.kind.ArithmeticBinop? || instr.kind.InvokeMethodInstruction? || IsConst(instr)
                  then AddArguments(s1, vs, 0, s.returnValue, instr.kind, mode) else s1;
        if !IsConst(instr) && instr.outValue.Some? then
          var t := if instr.kind.InvokeMethodInstruction? then instr.kind.invokedMethod.proto.returnType
                   else if instr.kind.ArithmeticBinop? then DexTypeFor(instr.kind.numericType)
                   else VOID;
          UpdateReturnValue(s2, instr.outValue.value, t)
        else s2
  }

  /** `candidate(start, index, actualInstructions)` for the window `[s.start, index[`. */
  function CandidateAt(s: SpotterState, index: nat, opts: OutlineOptions): (r: (SpotterState, Option<Candidate>))
    requires s.start < index <= |s.code| && !IsConst(s.code[s.start]) && WellFormedCode(s.code)
    requires s.pendingNewInstanceIndex == -1 || s.start <= s.pendingNewInstanceIndex < index
    ensures r.0.code == s.code
  {
    if s.pendingNewInstanceIndex != -1 then
      if s.pendingNewInstanceIndex == s.start then (Reset(s, index), None)
      else (Reset(s, s.pendingNewInstanceIndex), None)
    else
      var end := PreviousNonConst(s.code, s.start, index) + 1;
      if s.actualInstructions < opts.minSize then (Reset(s, s.start + 1), None)
      else
        var outline := Outline(Templates(s.code, s.start, end), s.argumentTypes, s.argumentsMap, s.returnType);
        (Reset(s, index), Some(Candidate(s.start, end, outline, s.arguments)))
  }

  /** The scanner invariant between two steps. */
  ghost predicate Inv(s: SpotterState, opts: OutlineOptions, mode: RegisterBudget) {
    WellFormedCode(s.code) && s.start <= s.index <= |s.code| &&
    (s.index > s.start ==> !IsConst(s.code[s.start]) && s.actualInstructions < opts.maxSize) &&
    s.actualInstructions == |Templates(s.code, s.start, s.index)| &&
    |s.argumentsMap| == SumInputs(s.code, s.start, s.index) &&
    |s.arguments| == |s.argumentTypes| && MapEntriesValid(s.argumentsMap, |s.arguments|) &&
    (s.pendingNewInstanceIndex == -1 ||
       (s.start <= s.pendingNewInstanceIndex < s.index &&
        s.code[s.pendingNewInstanceIndex].kind.NewInstanceInstruction?)) &&
    (s.returnValue.Some? ==> s.returnValueUsersLeft > 0) &&
    (mode == Intended ==> s.argumentRegisters == SumRegisters(s.arguments) <= MAX_IN_SIZE) &&
    ArgumentsNumbered(s) && WindowKinds(s.code, s.start, s.index)
  }

  /** `processInstruction` for the instruction at `s.index`. */
  function Step(s: SpotterState, opts: OutlineOptions, mode: RegisterBudget): (r: (SpotterState, Option<Candidate>))
    requires Inv(s, opts, mode) && s.index < |s.code|
  {
    var instr := s.code[s.index];
    if IsConst(instr) && s.index == s.start then (Reset(s, s.index + 1), None)
    else
      var check :=
        if IsConst(instr) || instr.kind.AssumeInstruction? then (true, s.pendingNewInstanceIndex)
        else CanInclude(s, instr, mode);
      var increment := if IsConst(instr) || instr.kind.AssumeInstruction? then 0 else 1;
      if check.0 then IncludeAndContinue(s, check.1, increment, opts, mode)
      else if s.index > s.start then CandidateAt(s.(pendingNewInstanceIndex := check.1), s.index, opts)
      else (Reset(s, s.index + 1), None)
  }

  /** The included branch of `processInstruction`: include, then close the window when it
      has reached `maxSize` instructions. */
  function IncludeAndContinue(s: SpotterState, pending: int, increment: nat, opts: OutlineOptions, mode: RegisterBudget)
    : (r: (SpotterState, Option<Candidate>))
    requires Inv(s, opts, mode) && s.index < |s.code|
    requires !(IsConst(s.code[s.index]) && s.index == s.start)
    requires pending == -1 || pending == s.pendingNewInstanceIndex || pending == s.index
  {
    var s1 := IncludeInstruction(s.(pendingNewInstanceIndex := pending,
                                    actualInstructions := s.actualInstructions + increment), mode);
    ContinueAfterInclude(s1, opts)
  }

  function ContinueAfterInclude(s1: SpotterState, opts: OutlineOptions): (r: (SpotterState, Option<Candidate>))
    requires s1.start <= s1.index < |s1.code| && !IsConst(s1.code[s1.start]) && WellFormedCode(s1.code)
    requires s1.pendingNewInstanceIndex == -1 || s1.start <= s1.pendingNewInstanceIndex <= s1.index
  {
    if s1.actualInstructions >= opts.maxSize then CandidateAt(s1, s1.index + 1, opts)
    else (s1.(index := s1.index + 1), None)
  }

  /** `process`: step until the end of the block; the candidates in the order found. */
  function Process(s: SpotterState, opts: OutlineOptions, mode: RegisterBudget): (r: (SpotterState, seq<Candidate>))
    requires Inv(s, opts, mode)
    decreases |s.code| - s.start, |s.code| - s.index
  {
    if s.index >= |s.code| then (s, [])
    else
      StepMakesProgress(s, opts, mode);
      var step := Step(s, opts, mode);
      var rest := Process(step.0, opts, mode);
      (rest.0, (if step.1.Some? then [step.1.value] else []) + rest.1)
  }

  /** A candidate as the scanner promises it: a window that starts and ends with a
      non-constant, whose outline holds exactly the window's template instructions, at
      least `minSize` and at most `maxSize` of them, one argument-map entry per in-value,
      every entry the temporary or an argument, and, under the intended accounting, at
      most `MAX_IN_SIZE` argument registers. */
  ghost predicate ValidCandidate(c: Candidate, code: seq<Instruction>, opts: OutlineOptions, mode: RegisterBudget) {
    WellFormedCode(code) && c.start < c.end <= |code| &&
    !IsConst(code[c.start]) && !IsConst(code[c.end - 1]) &&
    c.outline.templateInstructions == Templates(code, c.start, c.end) &&
    opts.minSize <= |c.outline.templateInstructions| &&
    (opts.maxSize >= 1 ==> |c.outline.templateInstructions| <= opts.maxSize) &&
    |c.outline.argumentMap| == SumInputs(code, c.start, c.end) &&
    MapEntriesValid(c.outline.argumentMap, |c.outline.argumentTypes|) &&
    |c.arguments| == |c.outline.argumentTypes| &&
    (mode == Intended ==> SumRegisters(c.arguments) <= MAX_IN_SIZE) &&
    IncrementalMap(c.outline.argumentMap) && FreshCount(c.outline.argumentMap) == |c.outline.argumentTypes| &&
    WindowKinds(code, c.start, c.end)
  }

  lemma {:induction false} CodeFrame(c1: seq<Instruction>, c2: seq<Instruction>, a: nat, b: nat)
    requires a <= b <= |c1| && b <= |c2| && WellFormedCode(c1) && WellFormedCode(c2)
    requires forall k :: a <= k < b ==> c1[k] == c2[k]
    ensures Templates(c1, a, b) == Templates(c2, a, b)
    ensures SumInputs(c1, a, b) == SumInputs(c2, a, b)
    decreases b - a
  {
    if a < b {
      CodeFrame(c1, c2, a, b - 1);
    }
  }

  lemma {:induction false} TrailingConstsAddNothing(code: seq<Instruction>, start: nat, end: nat, index: nat)
    requires start <= end <= index <= |code| && WellFormedCode(code)
    requires forall k :: end <= k < index ==> IsConst(code[k])
    ensures Templates(code, start, end) == Templates(code, start, index)
    ensures SumInputs(code, start, end) == SumInputs(code, start, index)
    decreases index - end
  {
    if end < index {
      TrailingConstsAddNothing(code, start, end, index - 1);
    }
  }

  lemma ResetEstablishesInv(s: SpotterState, k: nat, opts: OutlineOptions, mode: RegisterBudget)
    requires WellFormedCode(s.code) && k <= |s.code|
    ensures Inv(Reset(s, k), opts, mode)
  {
  }

  /** What holds of the window `[s.start, index[` when it is about to be closed. */
  ghost predicate WindowFacts(s: SpotterState, index: nat, opts: OutlineOptions, mode: RegisterBudget) {
    WellFormedCode(s.code) && s.start < index <= |s.code| && !IsConst(s.code[s.start]) &&
    s.actualInstructions == |Templates(s.code, s.start, index)| &&
    (opts.maxSize >= 1 ==> s.actualInstructions <= opts.maxSize) &&
    |s.argumentsMap| == SumInputs(s.code, s.start, index) &&
    |s.arguments| == |s.argumentTypes| && MapEntriesValid(s.argumentsMap, |s.arguments|) &&
    (s.pendingNewInstanceIndex == -1 || s.start <= s.pendingNewInstanceIndex < index) &&
    (mode == Intended ==> SumRegisters(s.arguments) <= MAX_IN_SIZE) &&
    ArgumentsNumbered(s) && WindowKinds(s.code, s.start, index)
  }

  /** Closing a window: an unmatched `new-instance` abandons it, restarting at the
      `new-instance` or, when that opened the window, at the window end; a window with too
      few instructions restarts one past its start; otherwise the candidate, with trailing
      constants backed out, is emitted and the scan resumes at the window end. */
  lemma CandidateAtIsValid(s: SpotterState, index: nat, opts: OutlineOptions, mode: RegisterBudget)
    requires WindowFacts(s, index, opts, mode)
    ensures var r := CandidateAt(s, index, opts);
      Inv(r.0, opts, mode) && r.0.start > s.start && r.0.code == s.code &&
      (s.pendingNewInstanceIndex != -1 ==>
         r.1.None? && r.0.start == (if s.pendingNewInstanceIndex == s.start then index else s.pendingNewInstanceIndex)) &&
      (s.pendingNewInstanceIndex == -1 && s.actualInstructions < opts.minSize ==>
         r.1.None? && r.0.start == s.start + 1) &&
      (s.pendingNewInstanceIndex == -1 && s.actualInstructions >= opts.minSize ==>
         r.1.Some? && r.0.start == index) &&
      (r.1.Some? ==>
         ValidCandidate(r.1.value, s.code, opts, mode) && r.1.value.start == s.start &&
         r.1.value.end <= r.0.start && r.1.value.outline.argumentTypes == s.argumentTypes &&
         r.1.value.outline.returnType == s.returnType && r.1.value.arguments == s.arguments &&
         (forall k :: r.1.value.end <= k < index ==> IsConst(s.code[k])))
  {
    var r := CandidateAt(s, index, opts);
    ResetEstablishesInv(s, index, opts, mode);
    ResetEstablishesInv(s, s.start + 1, opts, mode);
    if s.pendingNewInstanceIndex != -1 {
      ResetEstablishesInv(s, s.pendingNewInstanceIndex, opts, mode);
    } else if s.actualInstructions >= opts.minSize {
      var end := PreviousNonConst(s.code, s.start, index) + 1;
      TrailingConstsAddNothing(s.code, s.start, end, index);
    }
  }

  /** The window `[s.start, s.index]` after including the instruction at `s.index`. */
  ghost predicate ExtendedWindow(s: SpotterState, s1: SpotterState, opts: OutlineOptions, mode: RegisterBudget) {
    Inv(s, opts, mode) && s.index < |s.code| &&
    WellFormedCode(s1.code) && |s1.code| == |s.code| && s1.start == s.start && s1.index == s.index &&
    (forall k :: 0 <= k < |s.code| && k != s.index ==> s1.code[k] == s.code[k]) &&
    !IsConst(s1.code[s.start]) &&
    (s.index > s.start ==> s1.actualInstructions <= s.actualInstructions + 1) &&
    (s.index == s.start ==> s1.actualInstructions <= 1) &&
    s1.actualInstructions == |Templates(s1.code, s.start, s.index + 1)| &&
    |s1.argumentsMap| == SumInputs(s1.code, s.start, s.index + 1) &&
    |s1.arguments| == |s1.argumentTypes| && MapEntriesValid(s1.argumentsMap, |s1.arguments|) &&
    (s1.pendingNewInstanceIndex == -1 ||
      (s.start <= s1.pendingNewInstanceIndex <= s.index &&
       s1.code[s1.pendingNewInstanceIndex].kind.NewInstanceInstruction?)) &&
    (s1.returnValue.Some? ==> s1.returnValueUsersLeft > 0) &&
    (mode == Intended ==> s1.argumentRegisters == SumRegisters(s1.arguments) <= MAX_IN_SIZE) &&
    ArgumentsNumbered(s1) && WindowKinds(s1.code, s.start, s.index + 1) &&
    SameUpToOperandOrder(s.code, s1.code)
  }

  /** Including the instruction at `s.index` extends the window by it. */
  lemma IncludeExtendsWindow(s: SpotterState, pending: int, mode: RegisterBudget, opts: OutlineOptions)
    requires Inv(s, opts, mode) && s.index < |s.code|
    requires !(IsConst(s.code[s.index]) && s.index == s.start)
    requires pending == -1 || pending == s.pendingNewInstanceIndex ||
             (pending == s.index && s.code[s.index].kind.NewInstanceInstruction?)
    requires mode == Intended && (s.code[s.index].kind.ArithmeticBinop? || s.code[s.index].kind.InvokeMethodInstruction?) ==>
      var instr := s.code[s.index];
      var vs := OrderedInValues(instr, s.returnValue);
      s.argumentRegisters +
        RegistersFrom(vs, 0, s.returnValue,
          instr.kind.InvokeMethodInstruction? && instr.kind.invokeType != STATIC && ReusesReceiver(vs, s.arguments))
        <= MAX_IN_SIZE
    requires IsConst(s.code[s.index]) || s.code[s.index].kind.AssumeInstruction? || IsTemplated(s.code[s.index])
    ensures ExtendedWindow(s, IncludeInstruction(Included(s, pending), mode), opts, mode)
  {
    var t := Included(s, pending);
    var s1 := IncludeInstruction(t, mode);
    IncludeKeepsCode(s, t, s1, mode, opts);
    IncludeCounts(s, t, s1, mode, opts);
    IncludeKeepsBudget(s, t, s1, mode);
    IncludeKeepsNumbering(t, mode);
    IncludeKeepsKinds(s, s1);
  }

  /** Under the intended accounting the argument registers stay the sum over the arguments
      and within `MAX_IN_SIZE`, given the inclusion check on them. */
  lemma IncludeKeepsBudget(s: SpotterState, t: SpotterState, s1: SpotterState, mode: RegisterBudget)
    requires s.index < |s.code| && WellFormedInstruction(s.code[s.index])
    requires |s.arguments| == |s.argumentTypes| && MapEntriesValid(s.argumentsMap, |s.arguments|)
    requires s.returnValue.Some? ==> s.returnValueUsersLeft > 0
    requires mode == Intended ==> s.argumentRegisters == SumRegisters(s.arguments) <= MAX_IN_SIZE
    requires t == s.(pendingNewInstanceIndex := t.pendingNewInstanceIndex, actualInstructions := t.actualInstructions)
    requires mode == Intended && (s.code[s.index].kind.ArithmeticBinop? || s.code[s.index].kind.InvokeMethodInstruction?) ==>
      var instr := s.code[s.index];
      var vs := OrderedInValues(instr, s.returnValue);
      s.argumentRegisters +
        RegistersFrom(vs, 0, s.returnValue,
          instr.kind.InvokeMethodInstruction? && instr.kind.invokeType != STATIC && ReusesReceiver(vs, s.arguments))
        <= MAX_IN_SIZE
    requires s1 == IncludeInstruction(t, mode)
    ensures mode == Intended ==> s1.argumentRegisters == SumRegisters(s1.arguments) <= MAX_IN_SIZE
  {
    IncludeRegisters(t, mode);
  }

  lemma IncludeKeepsKinds(s: SpotterState, s1: SpotterState)
    requires s.start <= s.index < |s.code| == |s1.code| && WindowKinds(s.code, s.start, s.index)
    requires IsConst(s.code[s.index]) || s.code[s.index].kind.AssumeInstruction? || IsTemplated(s.code[s.index])
    requires s1.code[s.index].kind == s.code[s.index].kind
    requires forall k :: 0 <= k < |s.code| && k != s.index ==> s1.code[k] == s.code[k]
    ensures WindowKinds(s1.code, s.start, s.index + 1)
  {
    forall k | s.start <= k < s.index + 1
      ensures IsConst(s1.code[k]) || s1.code[k].kind.AssumeInstruction? || IsTemplated(s1.code[k])
    {
      if k < s.index {
        assert s1.code[k] == s.code[k];
      }
    }
  }

  lemma IncludeKeepsCode(s: SpotterState, t: SpotterState, s1: SpotterState, mode: RegisterBudget, opts: OutlineOptions)
    requires Inv(s, opts, mode) && s.index < |s.code|
    requires t.code == s.code && t.index == s.index && t.arguments == s.arguments &&
             t.argumentTypes == s.argumentTypes && t.argumentsMap == s.argumentsMap &&
             t.returnValue == s.returnValue && t.returnValueUsersLeft == s.returnValueUsersLeft
    requires s1 == IncludeInstruction(t, mode)
    ensures WellFormedCode(s1.code)
  {
    forall k | 0 <= k < |s1.code| ensures WellFormedInstruction(s1.code[k]) {
      if k != s.index {
        assert s1.code[k] == s.code[k];
      }
    }
  }

  lemma IncludeCounts(s: SpotterState, t: SpotterState, s1: SpotterState, mode: RegisterBudget, opts: OutlineOptions)
    requires s.start <= s.index < |s.code| && WellFormedCode(s.code)
    requires s.actualInstructions == |Templates(s.code, s.start, s.index)|
    requires |s.argumentsMap| == SumInputs(s.code, s.start, s.index)
    requires |s.arguments| == |s.argumentTypes| && MapEntriesValid(s.argumentsMap, |s.arguments|)
    requires s.returnValue.Some? ==> s.returnValueUsersLeft > 0
    requires t.code == s.code && t.index == s.index && t.start == s.start && t.arguments == s.arguments &&
             t.argumentTypes == s.argumentTypes && t.argumentsMap == s.argumentsMap &&
             t.returnValue == s.returnValue && t.returnValueUsersLeft == s.returnValueUsersLeft
    requires t.actualInstructions == s.actualInstructions + (if IsTemplated(s.code[s.index]) then 1 else 0)
    requires s1 == IncludeInstruction(t, mode)
    requires WellFormedCode(s1.code)
    ensures s1.actualInstructions == |Templates(s1.code, s.start, s.index + 1)|
    ensures |s1.argumentsMap| == SumInputs(s1.code, s.start, s.index + 1)
  {
    var instr := s.code[s.index];
    CodeFrame(s.code, s1.code, s.start, s.index);
    assert IsTemplated(s1.code[s.index]) <==> IsTemplated(instr);
    if IsTemplated(instr) {
      assert TemplateOf(s1.code[s.index]) == TemplateOf(instr);
    }
    assert InputCount(s1.code[s.index]) == InputCount(instr);
  }

  /** Under the intended accounting the argument registers stay the sum over the arguments
      and, given the inclusion check, within `MAX_IN_SIZE`. */
  lemma IncludeRegisters(s: SpotterState, mode: RegisterBudget)
    requires s.index < |s.code| && WellFormedInstruction(s.code[s.index])
    requires |s.arguments| == |s.argumentTypes| && MapEntriesValid(s.argumentsMap, |s.arguments|)
    requires s.returnValue.Some? ==> s.returnValueUsersLeft > 0
    ensures var r := IncludeInstruction(s, mode);
      var instr := s.code[s.index];
      var receiverKind := instr.kind.InvokeMethodInstruction? && instr.kind.invokeType != STATIC;
      (mode == Intended ==>
         r.argumentRegisters - s.argumentRegisters == SumRegisters(r.arguments) - SumRegisters(s.arguments)) &&
      ((mode == Intended || receiverKind) && (instr.kind.ArithmeticBinop? || instr.kind.InvokeMethodInstruction?) ==>
         r.argumentRegisters == s.argumentRegisters +
           RegistersFrom(OrderedInValues(instr, s.returnValue), 0, s.returnValue,
                         receiverKind && ReusesReceiver(OrderedInValues(instr, s.returnValue), s.arguments))) &&
      (!(instr.kind.ArithmeticBinop? || instr.kind.InvokeMethodInstruction?) ==>
         r.argumentRegisters == s.argumentRegisters && r.arguments == s.arguments)
  {
    var instr := s.code[s.index];
    if !instr.kind.AssumeInstruction? {
      var vs := OrderedInValues(instr, s.returnValue);
      var prev := s.returnValue;
      var s1 := UseOperands(s);
      if !instr.kind.NewInstanceInstruction? {
        AddArgumentsRegisters(s1, vs, 0, prev, instr.kind, mode);
      }
    }
  }

  lemma {:induction false} RegistersFromIgnoresFlag(vs: seq<Value>, i: nat, rv: Option<Value>)
    requires 0 < i <= |vs|
    ensures RegistersFrom(vs, i, rv, true) == RegistersFrom(vs, i, rv, false)
    decreases |vs| - i
  {
    if i < |vs| {
      RegistersFromIgnoresFlag(vs, i + 1, rv);
    }
  }

  lemma {:induction false} AddArgumentsRegisters(
    s: SpotterState, vs: seq<Value>, i: nat, prev: Option<Value>, kind: InstructionKind, mode: RegisterBudget)
    requires i <= |vs| && |s.arguments| == |s.argumentTypes|
    requires MapEntriesValid(s.argumentsMap, |s.arguments|)
    ensures var r := AddArguments(s, vs, i, prev, kind, mode);
      var receiverKind := kind.InvokeMethodInstruction? && kind.invokeType != STATIC;
      (mode == Intended ==>
         r.argumentRegisters - s.argumentRegisters == SumRegisters(r.arguments) - SumRegisters(s.arguments)) &&
      ((mode == Intended || receiverKind) ==>
         r.argumentRegisters == s.argumentRegisters +
           RegistersFrom(vs, i, prev, i == 0 && receiverKind && ReusesReceiver(vs, s.arguments)))
    decreases |vs| - i
  {
    if i < |vs| {
      var s' := AddArgument(s, vs[i], i, prev, kind, mode);
      AddArgumentRegisters(s, vs[i], i, prev, kind, mode);
      AddArgumentsRegisters(s', vs, i + 1, prev, kind, mode);
      RegistersFromIgnoresFlag(vs, i + 1, prev);
    }
  }

  lemma AddArgumentRegisters(
    s: SpotterState, v: Value, i: nat, prev: Option<Value>, kind: InstructionKind, mode: RegisterBudget)
    requires |s.arguments| == |s.argumentTypes| && MapEntriesValid(s.argumentsMap, |s.arguments|)
    ensures var r := AddArgument(s, v, i, prev, kind, mode);
      var receiverKind := kind.InvokeMethodInstruction? && kind.invokeType != STATIC;
      (mode == Intended ==>
         r.argumentRegisters - s.argumentRegisters == SumRegisters(r.arguments) - SumRegisters(s.arguments)) &&
      ((mode == Intended || receiverKind) ==>
         r.argumentRegisters == s.argumentRegisters +
           (if Some(v) == prev || (receiverKind && i == 0 && v in s.arguments) then 0 else v.requiredRegisters))
  {
    var r := AddArgument(s, v, i, prev, kind, mode);
    if r.arguments == s.arguments + [v] {
      assert (s.arguments + [v])[..|s.arguments|] == s.arguments;
    }
  }

  /** What one step promises: the invariant again, progress, the code changed at most at
      the current instruction, and only valid candidates lying before the resume point. */
  ghost predicate StepOutcome(s: SpotterState, r: (SpotterState, Option<Candidate>), opts: OutlineOptions, mode: RegisterBudget) {
    Inv(r.0, opts, mode) && |r.0.code| == |s.code| &&
    (r.0.start > s.start || (r.0.start == s.start && r.0.index == s.index + 1)) &&
    (forall k :: 0 <= k < |s.code| && k != s.index ==> r.0.code[k] == s.code[k]) &&
    SameUpToOperandOrder(s.code, r.0.code) &&
    (r.1.Some? ==> ValidCandidate(r.1.value, r.0.code, opts, mode) &&
                   r.1.value.start == s.start && r.1.value.end <= r.0.start)
  }

  lemma IncludeAndContinueOutcome(s: SpotterState, pending: int, opts: OutlineOptions, mode: RegisterBudget)
    requires Inv(s, opts, mode) && s.index < |s.code|
    requires !(IsConst(s.code[s.index]) && s.index == s.start)
    requires pending == -1 || pending == s.pendingNewInstanceIndex ||
             (pending == s.index && s.code[s.index].kind.NewInstanceInstruction?)
    requires mode == Intended && (s.code[s.index].kind.ArithmeticBinop? || s.code[s.index].kind.InvokeMethodInstruction?) ==>
      var instr := s.code[s.index];
      var vs := OrderedInValues(instr, s.returnValue);
      s.argumentRegisters +
        RegistersFrom(vs, 0, s.returnValue,
          instr.kind.InvokeMethodInstruction? && instr.kind.invokeType != STATIC && ReusesReceiver(vs, s.arguments))
        <= MAX_IN_SIZE
    requires IsConst(s.code[s.index]) || s.code[s.index].kind.AssumeInstruction? || IsTemplated(s.code[s.index])
    ensures StepOutcome(s, IncludeAndContinue(s, pending, if IsTemplated(s.code[s.index]) then 1 else 0, opts, mode), opts, mode)
  {
    IncludeExtendsWindow(s, pending, mode, opts);
    ExtendedWindowOutcome(s, IncludeInstruction(Included(s, pending), mode), opts, mode);
  }

  /** The state `includeInstruction` starts from: the pending `new-instance` updated and
      the instruction counted when it becomes a template instruction. */
  function Included(s: SpotterState, pending: int): (r: SpotterState)
    requires s.index < |s.code|
    ensures r.code == s.code && r.start == s.start && r.index == s.index && r.arguments == s.arguments
    ensures r.argumentTypes == s.argumentTypes && r.argumentsMap == s.argumentsMap
    ensures r.returnValue == s.returnValue && r.returnValueUsersLeft == s.returnValueUsersLeft
    ensures r == s.(pendingNewInstanceIndex := pending, actualInstructions := r.actualInstructions)
  {
    s.(pendingNewInstanceIndex := pending,
       actualInstructions := s.actualInstructions + (if IsTemplated(s.code[s.index]) then 1 else 0))
  }

  lemma ExtendedWindowOutcome(s: SpotterState, s1: SpotterState, opts: OutlineOptions, mode: RegisterBudget)
    requires ExtendedWindow(s, s1, opts, mode)
    ensures StepOutcome(s, ContinueAfterInclude(s1, opts), opts, mode)
  {
    if s1.actualInstructions >= opts.maxSize {
      FullWindowOutcome(s, s1, opts, mode);
    } else {
      OpenWindowOutcome(s, s1, opts, mode);
    }
  }

  lemma FullWindowOutcome(s: SpotterState, s1: SpotterState, opts: OutlineOptions, mode: RegisterBudget)
    requires ExtendedWindow(s, s1, opts, mode) && s1.actualInstructions >= opts.maxSize
    ensures StepOutcome(s, ContinueAfterInclude(s1, opts), opts, mode)
  {
    assert ContinueAfterInclude(s1, opts) == CandidateAt(s1, s.index + 1, opts);
    ExtendedWindowFacts(s, s1, opts, mode);
    FullWindowCloses(s, s1, opts, mode);
  }

  lemma FullWindowCloses(s: SpotterState, s1: SpotterState, opts: OutlineOptions, mode: RegisterBudget)
    requires s.index < |s.code| && |s1.code| == |s.code| && s1.start == s.start
    requires forall k :: 0 <= k < |s.code| && k != s.index ==> s1.code[k] == s.code[k]
    requires SameUpToOperandOrder(s.code, s1.code) && WindowFacts(s1, s.index + 1, opts, mode)
    ensures StepOutcome(s, CandidateAt(s1, s.index + 1, opts), opts, mode)
  {
    CandidateAtIsValid(s1, s.index + 1, opts, mode);
    ClosedWindowOutcome(s, s1, CandidateAt(s1, s.index + 1, opts), opts, mode);
  }

  lemma ExtendedWindowFacts(s: SpotterState, s1: SpotterState, opts: OutlineOptions, mode: RegisterBudget)
    requires ExtendedWindow(s, s1, opts, mode) && s1.actualInstructions >= opts.maxSize
    ensures WindowFacts(s1, s.index + 1, opts, mode)
  {
  }

  lemma OpenWindowOutcome(s: SpotterState, s1: SpotterState, opts: OutlineOptions, mode: RegisterBudget)
    requires ExtendedWindow(s, s1, opts, mode) && s1.actualInstructions < opts.maxSize
    ensures StepOutcome(s, ContinueAfterInclude(s1, opts), opts, mode)
  {
    assert ContinueAfterInclude(s1, opts) == (s1.(index := s.index + 1), None);
  }

  lemma ClosedWindowOutcome(s: SpotterState, s1: SpotterState, r: (SpotterState, Option<Candidate>),
                            opts: OutlineOptions, mode: RegisterBudget)
    requires s.index < |s.code| && |s1.code| == |s.code|
    requires forall k :: 0 <= k < |s.code| && k != s.index ==> s1.code[k] == s.code[k]
    requires s1.start == s.start && SameUpToOperandOrder(s.code, s1.code)
    requires Inv(r.0, opts, mode) && r.0.start > s1.start && r.0.code == s1.code
    requires r.1.Some? ==> ValidCandidate(r.1.value, s1.code, opts, mode) &&
                           r.1.value.start == s1.start && r.1.value.end <= r.0.start
    ensures StepOutcome(s, r, opts, mode)
  {
  }

  lemma AddArgumentKeepsNumbering(
    s: SpotterState, v: Value, i: nat, prev: Option<Value>, kind: InstructionKind, mode: RegisterBudget)
    requires |s.arguments| == |s.argumentTypes| && MapEntriesValid(s.argumentsMap, |s.arguments|)
    requires ArgumentsNumbered(s)
    ensures ArgumentsNumbered(AddArgument(s, v, i, prev, kind, mode))
  {
    var receiverKind := kind.InvokeMethodInstruction? && kind.invokeType != STATIC;
    if Some(v) == prev {
      IncrementalMapAppend(s.argumentsMap, OUTLINE_TEMP);
    } else if receiverKind && i == 0 && v in s.arguments {
      IncrementalMapAppend(s.argumentsMap, IndexOf(s.arguments, v));
    } else {
      IncrementalMapAppend(s.argumentsMap, |s.argumentTypes|);
    }
  }

  lemma {:induction false} AddArgumentsKeepsNumbering(
    s: SpotterState, vs: seq<Value>, i: nat, prev: Option<Value>, kind: InstructionKind, mode: RegisterBudget)
    requires i <= |vs| && |s.arguments| == |s.argumentTypes|
    requires MapEntriesValid(s.argumentsMap, |s.arguments|)
    requires ArgumentsNumbered(s)
    ensures ArgumentsNumbered(AddArguments(s, vs, i, prev, kind, mode))
    decreases |vs| - i
  {
    if i < |vs| {
      AddArgumentKeepsNumbering(s, vs[i], i, prev, kind, mode);
      AddArgumentsKeepsNumbering(AddArgument(s, vs[i], i, prev, kind, mode), vs, i + 1, prev, kind, mode);
    }
  }

  lemma IncludeKeepsNumbering(s: SpotterState, mode: RegisterBudget)
    requires s.index < |s.code| && WellFormedInstruction(s.code[s.index])
    requires |s.arguments| == |s.argumentTypes| && MapEntriesValid(s.argumentsMap, |s.arguments|)
    requires s.returnValue.Some? ==> s.returnValueUsersLeft > 0
    requires ArgumentsNumbered(s)
    ensures ArgumentsNumbered(IncludeInstruction(s, mode))
  {
    var instr := s.code[s.index];
    if !instr.kind.AssumeInstruction? {
      var vs := OrderedInValues(instr, s.returnValue);
      var prev := s.returnValue;
      var s1 := UseOperands(s);
      if !instr.kind.NewInstanceInstruction? {
        AddArgumentsKeepsNumbering(s1, vs, 0, prev, instr.kind, mode);
      }
    }
  }

  /** One step keeps the invariant, moves the scan forward, changes the code at most at
      the current instruction, and emits only valid candidates lying before the resume
      point. */
  lemma StepPreservesInvariant(s: SpotterState, opts: OutlineOptions, mode: RegisterBudget)
    requires Inv(s, opts, mode) && s.index < |s.code|
    ensures StepOutcome(s, Step(s, opts, mode), opts, mode)
  {
    var instr := s.code[s.index];
    if IsConst(instr) && s.index == s.start {
      RestartStepOutcome(s, opts, mode);
    } else if IsConst(instr) || instr.kind.AssumeInstruction? {
      KeepSearchingStepOutcome(s, opts, mode);
    } else {
      CheckedStepOutcome(s, opts, mode);
    }
  }

  /** A constant cannot start a window: the scan restarts past it. */
  lemma RestartStepOutcome(s: SpotterState, opts: OutlineOptions, mode: RegisterBudget)
    requires Inv(s, opts, mode) && s.index < |s.code| && IsConst(s.code[s.index]) && s.index == s.start
    ensures StepOutcome(s, Step(s, opts, mode), opts, mode)
  {
    ResetEstablishesInv(s, s.index + 1, opts, mode);
  }

  /** Constants inside a window and assumes are included without being counted. */
  lemma KeepSearchingStepOutcome(s: SpotterState, opts: OutlineOptions, mode: RegisterBudget)
    requires Inv(s, opts, mode) && s.index < |s.code| && !(IsConst(s.code[s.index]) && s.index == s.start)
    requires IsConst(s.code[s.index]) || s.code[s.index].kind.AssumeInstruction?
    ensures StepOutcome(s, Step(s, opts, mode), opts, mode)
  {
    assert !IsTemplated(s.code[s.index]);
    IncludeAndContinueOutcome(s, s.pendingNewInstanceIndex, opts, mode);
  }

  /** Any other instruction is included when the inclusion check allows it; otherwise the
      window closes before it, or the scan restarts past it when the window is empty. */
  lemma CheckedStepOutcome(s: SpotterState, opts: OutlineOptions, mode: RegisterBudget)
    requires Inv(s, opts, mode) && s.index < |s.code|
    requires !IsConst(s.code[s.index]) && !s.code[s.index].kind.AssumeInstruction?
    ensures StepOutcome(s, Step(s, opts, mode), opts, mode)
  {
    var check := CanInclude(s, s.code[s.index], mode);
    if check.0 {
      IncludeAndContinueOutcome(s, check.1, opts, mode);
    } else if s.index > s.start {
      CandidateAtIsValid(s.(pendingNewInstanceIndex := check.1), s.index, opts, mode);
    } else {
      ResetEstablishesInv(s, s.index + 1, opts, mode);
    }
  }

  lemma ValidCandidateFrame(c: Candidate, c1: seq<Instruction>, c2: seq<Instruction>, opts: OutlineOptions, mode: RegisterBudget)
    requires ValidCandidate(c, c1, opts, mode) && WellFormedCode(c2) && |c2| == |c1|
    requires forall k :: c.start <= k < c.end ==> c2[k] == c1[k]
    ensures ValidCandidate(c, c2, opts, mode)
  {
    CodeFrame(c1, c2, c.start, c.end);
  }

  lemma SameUpToOperandOrderTransitive(c1: seq<Instruction>, c2: seq<Instruction>, c3: seq<Instruction>)
    requires SameUpToOperandOrder(c1, c2) && SameUpToOperandOrder(c2, c3)
    ensures SameUpToOperandOrder(c1, c3)
  {
    forall k | 0 <= k < |c1| ensures IsOperandReordering(c1[k].inValues, c3[k].inValues) {
      ReorderingTransitive(c1[k].inValues, c2[k].inValues, c3[k].inValues);
    }
  }

  /** Valid candidates at or after `from`, in ascending order and pairwise disjoint. */
  ghost predicate CandidatesInOrder(cs: seq<Candidate>, code: seq<Instruction>, from: nat, opts: OutlineOptions, mode: RegisterBudget) {
    (forall i :: 0 <= i < |cs| ==> ValidCandidate(cs[i], code, opts, mode) && from <= cs[i].start) &&
    (forall i, j :: 0 <= i < j < |cs| ==> cs[i].end <= cs[j].start)
  }

  lemma CandidatesInOrderCons(c: Candidate, cs: seq<Candidate>, code: seq<Instruction>, from: nat, opts: OutlineOptions, mode: RegisterBudget)
    requires ValidCandidate(c, code, opts, mode) && from <= c.start
    requires CandidatesInOrder(cs, code, c.end, opts, mode)
    ensures CandidatesInOrder([c] + cs, code, from, opts, mode)
  {
    var r := [c] + cs;
    forall i | 0 <= i < |r| ensures ValidCandidate(r[i], code, opts, mode) && from <= r[i].start {
      if i > 0 {
        assert r[i] == cs[i - 1];
      }
    }
    forall i, j | 0 <= i < j < |r| ensures r[i].end <= r[j].start {
      assert r[j] == cs[j - 1];
      if i > 0 {
        assert r[i] == cs[i - 1];
      }
    }
  }

  lemma CandidatesInOrderWeaken(cs: seq<Candidate>, code: seq<Instruction>, from: nat, from': nat, opts: OutlineOptions, mode: RegisterBudget)
    requires CandidatesInOrder(cs, code, from, opts, mode) && from' <= from
    ensures CandidatesInOrder(cs, code, from', opts, mode)
  {
  }

  /** What a scan from `s` promises of its outcome `r`. */
  ghost predicate ScanOutcome(s: SpotterState, r: (SpotterState, seq<Candidate>), opts: OutlineOptions, mode: RegisterBudget) {
    s.start <= |s.code| == |r.0.code| && WellFormedCode(r.0.code) && SameUpToOperandOrder(s.code, r.0.code) &&
    (forall k :: 0 <= k < s.start ==> r.0.code[k] == s.code[k]) &&
    CandidatesInOrder(r.1, r.0.code, s.start, opts, mode)
  }

  /** A whole scan from a state satisfying the invariant changes the block only by
      reordering operands at or after the scan start, and yields valid candidates, in
      ascending order and pairwise disjoint, all at or after the scan start. */
  lemma {:induction false} ProcessYieldsValidCandidates(s: SpotterState, opts: OutlineOptions, mode: RegisterBudget)
    requires Inv(s, opts, mode)
    ensures ScanOutcome(s, Process(s, opts, mode), opts, mode)
    decreases |s.code| - s.start, |s.code| - s.index
  {
    if s.index < |s.code| {
      StepPreservesInvariant(s, opts, mode);
      var step := Step(s, opts, mode);
      ProcessYieldsValidCandidates(step.0, opts, mode);
      var rest := Process(step.0, opts, mode);
      ProcessUnfolds(s, opts, mode);
      StepThenScan(s, step, rest, opts, mode);
    }
  }

  lemma ProcessUnfolds(s: SpotterState, opts: OutlineOptions, mode: RegisterBudget)
    requires Inv(s, opts, mode) && s.index < |s.code|
    ensures var step := Step(s, opts, mode);
      Inv(step.0, opts, mode) &&
      var rest := Process(step.0, opts, mode);
      Process(s, opts, mode) == (rest.0, (if step.1.Some? then [step.1.value] else []) + rest.1)
  {
    StepMakesProgress(s, opts, mode);
  }

  /** One step followed by the scan of the rest. */
  lemma StepThenScan(s: SpotterState, step: (SpotterState, Option<Candidate>), rest: (SpotterState, seq<Candidate>),
                     opts: OutlineOptions, mode: RegisterBudget)
    requires s.start <= s.index < |s.code| && StepOutcome(s, step, opts, mode) && ScanOutcome(step.0, rest, opts, mode)
    ensures ScanOutcome(s, (rest.0, (if step.1.Some? then [step.1.value] else []) + rest.1), opts, mode)
  {
    SameUpToOperandOrderTransitive(s.code, step.0.code, rest.0.code);
    forall k | 0 <= k < s.start ensures rest.0.code[k] == s.code[k] {
      assert rest.0.code[k] == step.0.code[k];
    }
    if step.1.Some? {
      var c := step.1.value;
      ValidCandidateFrame(c, step.0.code, rest.0.code, opts, mode);
      CandidatesInOrderWeaken(rest.1, rest.0.code, step.0.start, c.end, opts, mode);
      CandidatesInOrderCons(c, rest.1, rest.0.code, s.start, opts, mode);
    } else {
      CandidatesInOrderWeaken(rest.1, rest.0.code, step.0.start, s.start, opts, mode);
      assert [] + rest.1 == rest.1;
    }
  }

  /** Spot the candidates of one block, as `process` does from the initial state. */
  function Spot(code: seq<Instruction>, opts: OutlineOptions, mode: RegisterBudget): (r: seq<Candidate>)
    requires WellFormedCode(code)
  {
    assert Inv(Start(code), opts, mode);
    Process(Start(code), opts, mode).1
  }

  /** The candidates of a block are valid windows of the block, as it stands after the
      scan reordered commutative operands, in ascending order and pairwise disjoint. */
  lemma SpotYieldsValidCandidates(code: seq<Instruction>, opts: OutlineOptions, mode: RegisterBudget)
    requires WellFormedCode(code)
    ensures var r := Process(Start(code), opts, mode);
      assert Inv(Start(code), opts, mode);
      SameUpToOperandOrder(code, r.0.code) && r.1 == Spot(code, opts, mode) &&
      CandidatesInOrder(r.1, r.0.code, 0, opts, mode)
  {
    assert Inv(Start(code), opts, mode);
    ProcessYieldsValidCandidates(Start(code), opts, mode);
  }

  /** Outside polymorphic calls, the argument map of a window has one entry per input of
      its template instructions. */
  lemma {:induction false} ArgumentMapCountsInputs(code: seq<Instruction>, start: nat, end: nat)
    requires start <= end <= |code| && WellFormedCode(code)
    requires forall k :: start <= k < end ==>
      !(code[k].kind.InvokeMethodInstruction? && code[k].kind.invokeType == POLYMORPHIC)
    ensures SumInputs(code, start, end) == SumNumberOfInputs(Templates(code, start, end))
    decreases end - start
  {
    if start < end {
      ArgumentMapCountsInputs(code, start, end - 1);
      var ts := Templates(code, start, end - 1);
      var i := code[end - 1];
      if IsTemplated(i) {
        var t := TemplateOf(i);
        assert Templates(code, start, end) == ts + [t];
        assert (ts + [t])[..|ts|] == ts;
        assert SumNumberOfInputs(ts + [t]) == SumNumberOfInputs(ts) + NumberOfInputs(t);
        if t.Invoke? {
          NumberOfInputsCountsInValues(t);
        }
        assert NumberOfInputs(t) == InputCount(i);
      } else {
        assert Templates(code, start, end) == ts + [];
        assert ts + [] == ts;
      }
    }
  }

  function SumIntendedInputs(ts: seq<OutlineInstruction>): nat
    decreases |ts|
  {
    if ts == [] then 0 else SumIntendedInputs(ts[..|ts| - 1]) + IntendedNumberOfInputs(ts[|ts| - 1])
  }

  /** With the corrected input count, every window's argument map has exactly one entry
      per input of its template instructions, polymorphic calls included. */
  lemma {:induction false} ArgumentMapCountsIntendedInputs(code: seq<Instruction>, start: nat, end: nat)
    requires start <= end <= |code| && WellFormedCode(code)
    ensures SumInputs(code, start, end) == SumIntendedInputs(Templates(code, start, end))
    decreases end - start
  {
    if start < end {
      ArgumentMapCountsIntendedInputs(code, start, end - 1);
      var ts := Templates(code, start, end - 1);
      var i := code[end - 1];
      if IsTemplated(i) {
        var t := TemplateOf(i);
        assert Templates(code, start, end) == ts + [t];
        assert (ts + [t])[..|ts|] == ts;
        IntendedNumberOfInputsCountsInValues(t);
        assert IntendedNumberOfInputs(t) == InputCount(i);
      } else {
        assert Templates(code, start, end) == ts + [];
        assert ts + [] == ts;
      }
    }
  }

  /** A window holding just `MethodHandle.invoke(Object[])` called with two `int`s. */
  function PolymorphicWindow(): seq<Instruction> {
    var t := MethodHandleInvoke();
    var obj := DexType("Ljava/lang/Object;");
    var kind := InvokeMethodInstruction(POLYMORPHIC, t.invokedMethod, t.proto, false, true,
                                        [obj, DexType("I"), DexType("I")]);
    [Instruction(kind, [OneRegisterValue(1), OneRegisterValue(2), OneRegisterValue(3)], None)]
  }

  /** As written, that window's argument map has three entries while its template claims
      two inputs, so walking the map by `numberOfInputs` reads the wrong entries. */
  lemma PolymorphicWindowMisaligned()
    ensures WellFormedCode(PolymorphicWindow())
    ensures SumInputs(PolymorphicWindow(), 0, 1) == 3
    ensures SumNumberOfInputs(Templates(PolymorphicWindow(), 0, 1)) == 2
  {
    var code := PolymorphicWindow();
    assert WellFormedInstruction(code[0]);
    SingleInstructionWindow(code);
    MethodHandleInvokeMisaligned();
    assert TemplateOf(code[0]) == MethodHandleInvoke();
  }

  lemma SingleInstructionWindow(code: seq<Instruction>)
    requires |code| == 1 && WellFormedCode(code) && IsTemplated(code[0])
    ensures SumInputs(code, 0, 1) == InputCount(code[0])
    ensures SumNumberOfInputs(Templates(code, 0, 1)) == NumberOfInputs(TemplateOf(code[0]))
  {
    assert Templates(code, 0, 1) == [TemplateOf(code[0])];
    assert [TemplateOf(code[0])][..0] == [];
  }

  // A block showing the register budget as written: two static calls, each with three
  // fresh one-register arguments, then an instruction that closes the window.

  function OneRegisterValue(id: nat): Value {
    Value(id, 1, 1, true)
  }

  /** `static void A.m(int, int, int)`, movable anywhere. */
  function StaticCallKind(): InstructionKind {
    var ints := [DexType("I"), DexType("I"), DexType("I")];
    InvokeMethodInstruction(STATIC, DexMethod(DexType("LA;"), DexProto(VOID, ints), "m"), None, false, true, ints)
  }

  function StaticCall(args: seq<Value>): Instruction {
    Instruction(StaticCallKind(), args, None)
  }

  predicate IsThreeArgumentCall(i: Instruction) {
    i.kind == StaticCallKind() && i.outValue.None? && |i.inValues| == 3 &&
    forall j :: 0 <= j < 3 ==> i.inValues[j].requiredRegisters == 1 && i.inValues[j].supportedArgumentType
  }

  function TwoStaticCalls(): seq<Instruction> {
    [StaticCall([OneRegisterValue(1), OneRegisterValue(2), OneRegisterValue(3)]),
     StaticCall([OneRegisterValue(4), OneRegisterValue(5), OneRegisterValue(6)]),
     Instruction(OtherInstruction, [], None)]
  }

  /** The shape of the block above: two static calls of three one-register arguments
      each, then an instruction that cannot be outlined. */
  predicate TwoCallsShape(code: seq<Instruction>) {
    |code| == 3 && IsThreeArgumentCall(code[0]) && IsThreeArgumentCall(code[1]) &&
    code[2].kind.OtherInstruction? && code[2].outValue.None?
  }

  /** As written, the block above yields one outline whose six arguments take six
      registers, more than `MAX_IN_SIZE`. */
  lemma AsWrittenExceedsRegisterBudget()
    ensures WellFormedCode(TwoStaticCalls())
    ensures var cs := Spot(TwoStaticCalls(), OutlineOptions(2, 10), AsWritten);
      |cs| == 1 && |cs[0].arguments| == 6 && SumRegisters(cs[0].arguments) == 6 > MAX_IN_SIZE
  {
    assert TwoCallsShape(TwoStaticCalls());
    TwoCallsExceedRegisterBudget(TwoStaticCalls());
  }

  lemma TwoCallsExceedRegisterBudget(code: seq<Instruction>)
    requires TwoCallsShape(code)
    ensures WellFormedCode(code)
    ensures var cs := Spot(code, OutlineOptions(2, 10), AsWritten);
      |cs| == 1 && |cs[0].arguments| == 6 && SumRegisters(cs[0].arguments) == 6 > MAX_IN_SIZE
  {
    var opts := OutlineOptions(2, 10);
    assert WellFormedCode(code);
    var s0 := Start(code);
    assert Inv(s0, opts, AsWritten);
    var c := ScanFromCall(s0, opts);
    assert Spot(code, opts, AsWritten) == [c];
    OneRegisterEach(c.arguments);
  }

  /** The scan of the block above from one of its calls. */
  lemma ScanFromCall(s: SpotterState, opts: OutlineOptions) returns (c: Candidate)
    requires Inv(s, opts, AsWritten) && opts == OutlineOptions(2, 10)
    requires TwoCallsShape(s.code) && s.start == 0 && (s.index == 0 || s.index == 1)
    requires s.pendingNewInstanceIndex == -1 && s.returnValue.None? && s.argumentRegisters == 0
    requires s.actualInstructions == s.index
    requires s.index == 0 ==> s.arguments == []
    requires s.index == 1 ==> s.arguments == s.code[0].inValues
    ensures Process(s, opts, AsWritten).1 == [c]
    ensures c.arguments == s.code[0].inValues + s.code[1].inValues
    ensures forall k :: 0 <= k < |c.arguments| ==> c.arguments[k].requiredRegisters == 1
    decreases 2 - s.index
  {
    var st := CallStep(s, opts);
    QuietStep(s, opts, AsWritten);
    if s.index == 0 {
      c := ScanFromCall(st.0, opts);
    } else {
      c := CloseAndFinish(st.0, opts);
    }
  }

  /** A step that emits no candidate leaves the rest of the scan to the next state. */
  lemma QuietStep(s: SpotterState, opts: OutlineOptions, mode: RegisterBudget)
    requires Inv(s, opts, mode) && s.index < |s.code| && Step(s, opts, mode).1.None?
    ensures Inv(Step(s, opts, mode).0, opts, mode)
    ensures Process(s, opts, mode).1 == Process(Step(s, opts, mode).0, opts, mode).1
  {
    ProcessUnfolds(s, opts, mode);
    assert [] + Process(Step(s, opts, mode).0, opts, mode).1 == Process(Step(s, opts, mode).0, opts, mode).1;
  }

  lemma {:induction false} OneRegisterEach(vs: seq<Value>)
    requires forall k :: 0 <= k < |vs| ==> vs[k].requiredRegisters == 1
    ensures SumRegisters(vs) == |vs|
    decreases |vs|
  {
    if vs != [] {
      OneRegisterEach(vs[..|vs| - 1]);
    }
  }

  /** The rest of the scan of the block above once both calls are in the window: the
      window closes at the third instruction with one candidate, and nothing follows. */
  lemma CloseAndFinish(s: SpotterState, opts: OutlineOptions) returns (c: Candidate)
    requires Inv(s, opts, AsWritten) && opts == OutlineOptions(2, 10)
    requires TwoCallsShape(s.code) && s.start == 0 && s.index == 2
    requires s.pendingNewInstanceIndex == -1 && s.actualInstructions == 2
    ensures Process(s, opts, AsWritten).1 == [c] && c.arguments == s.arguments
  {
    var code := s.code;
    var st3 := Step(s, opts, AsWritten);
    assert CanInclude(s, code[2], AsWritten) == (false, -1);
    assert PreviousNonConst(code, 0, 2) == 1;
    assert st3 == CandidateAt(s, 2, opts);
    assert st3.1.Some? && st3.0 == Reset(s, 2);
    c := st3.1.value;
    StepPreservesInvariant(s, opts, AsWritten);
    var st4 := Step(st3.0, opts, AsWritten);
    assert st4 == (Reset(st3.0, 3), None);
    StepPreservesInvariant(st3.0, opts, AsWritten);
    assert Process(st4.0, opts, AsWritten).1 == [];
    assert Process(st3.0, opts, AsWritten).1 == [];
  }

  /** One step over a static call of the block above, whose three arguments are all new. */
  lemma CallStep(s: SpotterState, opts: OutlineOptions) returns (r: (SpotterState, Option<Candidate>))
    requires Inv(s, opts, AsWritten) && opts == OutlineOptions(2, 10)
    requires TwoCallsShape(s.code) && s.start == 0 && (s.index == 0 || s.index == 1)
    requires s.pendingNewInstanceIndex == -1 && s.returnValue.None? && s.argumentRegisters == 0
    requires s.actualInstructions == s.index
    ensures r == Step(s, opts, AsWritten) && r.1.None?
    ensures r.0 == s.(index := s.index + 1, actualInstructions := s.actualInstructions + 1,
                      arguments := s.arguments + s.code[s.index].inValues,
                      argumentTypes := r.0.argumentTypes, argumentsMap := r.0.argumentsMap)
  {
    var instr := s.code[s.index];
    assert IsThreeArgumentCall(instr);
    var t := s.(pendingNewInstanceIndex := -1, actualInstructions := s.actualInstructions + 1);
    CallIncludeInstruction(t);
    CallArguments(t, instr.inValues);
    var a := IncludeInstruction(t, AsWritten);
    r := (a.(index := s.index + 1), None);
    CallIsIncluded(s, opts, r);
  }

  lemma CallIsIncluded(s: SpotterState, opts: OutlineOptions, r: (SpotterState, Option<Candidate>))
    requires Inv(s, opts, AsWritten) && s.index < |s.code| && IsThreeArgumentCall(s.code[s.index])
    requires s.pendingNewInstanceIndex == -1 && s.returnValue.None? && s.argumentRegisters == 0
    requires s.actualInstructions + 1 < opts.maxSize
    requires r == (IncludeInstruction(s.(pendingNewInstanceIndex := -1, actualInstructions := s.actualInstructions + 1),
                                      AsWritten).(index := s.index + 1), None)
    ensures Step(s, opts, AsWritten) == r
  {
    CallStepIncludes(s, opts);
    IncludeBelowMaxSize(s, opts);
  }

  lemma CallStepIncludes(s: SpotterState, opts: OutlineOptions)
    requires Inv(s, opts, AsWritten) && s.index < |s.code| && IsThreeArgumentCall(s.code[s.index])
    requires s.pendingNewInstanceIndex == -1 && s.returnValue.None? && s.argumentRegisters == 0
    ensures Step(s, opts, AsWritten) == IncludeAndContinue(s, -1, 1, opts, AsWritten)
  {
    CallCanBeIncluded(s, s.code[s.index]);
  }

  lemma IncludeBelowMaxSize(s: SpotterState, opts: OutlineOptions)
    requires Inv(s, opts, AsWritten) && s.index < |s.code| && IsThreeArgumentCall(s.code[s.index])
    requires s.returnValue.None?
    requires s.actualInstructions + 1 < opts.maxSize
    ensures IncludeAndContinue(s, -1, 1, opts, AsWritten) ==
      (IncludeInstruction(s.(pendingNewInstanceIndex := -1, actualInstructions := s.actualInstructions + 1),
                          AsWritten).(index := s.index + 1), None)
  {
  }

  lemma CallIncludeInstruction(t: SpotterState)
    requires t.index < |t.code| && IsThreeArgumentCall(t.code[t.index]) && t.returnValue.None?
    requires |t.arguments| == |t.argumentTypes| && MapEntriesValid(t.argumentsMap, |t.arguments|)
    ensures IncludeInstruction(t, AsWritten) ==
      AddArguments(t, t.code[t.index].inValues, 0, None, StaticCallKind(), AsWritten)
  {
    assert UseOperands(t) == t;
  }

  lemma CallCanBeIncluded(s: SpotterState, instr: Instruction)
    requires s.start <= s.index <= |s.code| && (s.start < s.index ==> !IsConst(s.code[s.start]))
    requires IsThreeArgumentCall(instr) && s.returnValue.None? && s.argumentRegisters == 0
    requires s.pendingNewInstanceIndex == -1
    ensures WellFormedInstruction(instr) && CanInclude(s, instr, AsWritten) == (true, -1)
  {
    var vs := instr.inValues;
    assert RegistersFrom(vs, 3, None, false) == 0;
    assert RegistersFrom(vs, 2, None, false) == 1;
    assert RegistersFrom(vs, 1, None, false) == 2;
    assert RegistersFrom(vs, 0, None, false) == 3;
    assert AllSupportedFrom(vs, 0, None);
  }

  /** The argument loop over a static call of the block above: every in-value becomes a
      new argument, and none of their registers is counted. */
  lemma CallArguments(t: SpotterState, vs: seq<Value>)
    requires |t.arguments| == |t.argumentTypes| && MapEntriesValid(t.argumentsMap, |t.arguments|)
    requires |vs| == 3
    ensures var r := AddArguments(t, vs, 0, None, StaticCallKind(), AsWritten);
      r.arguments == t.arguments + vs && r.argumentRegisters == t.argumentRegisters
  {
    var kind := StaticCallKind();
    var a1 := AddArgument(t, vs[0], 0, None, kind, AsWritten);
    var a2 := AddArgument(a1, vs[1], 1, None, kind, AsWritten);
    var a3 := AddArgument(a2, vs[2], 2, None, kind, AsWritten);
    assert AddArguments(a3, vs, 3, None, kind, AsWritten) == a3;
    assert AddArguments(a2, vs, 2, None, kind, AsWritten) == a3;
    assert AddArguments(a1, vs, 1, None, kind, AsWritten) == a3;
    assert AddArguments(t, vs, 0, None, kind, AsWritten) == a3;
    assert vs == [vs[0]] + [vs[1]] + [vs[2]];
  }

  /** With every new argument counted, no candidate needs more than `MAX_IN_SIZE`
      argument registers. */
  lemma IntendedKeepsRegisterBudget(code: seq<Instruction>, opts: OutlineOptions)
    requires WellFormedCode(code)
    ensures var cs := Spot(code, opts, Intended);
      forall i :: 0 <= i < |cs| ==> SumRegisters(cs[i].arguments) <= MAX_IN_SIZE
  {
    SpotYieldsValidCandidates(code, opts, Intended);
    assert Inv(Start(code), opts, Intended);
    var r := Process(Start(code), opts, Intended);
    forall i | 0 <= i < |r.1| ensures SumRegisters(r.1[i].arguments) <= MAX_IN_SIZE {
      assert ValidCandidate(r.1[i], r.0.code, opts, Intended);
    }
  }

  /** What `process` needs of a step: the invariant again and progress of the scan. */
  lemma StepMakesProgress(s: SpotterState, opts: OutlineOptions, mode: RegisterBudget)
    requires Inv(s, opts, mode) && s.index < |s.code|
    ensures var r := Step(s, opts, mode);
      Inv(r.0, opts, mode) && |r.0.code| == |s.code| &&
      (r.0.start > s.start || (r.0.start == s.start && r.0.index == s.index + 1))
  {
    StepPreservesInvariant(s, opts, mode);
  }
}
