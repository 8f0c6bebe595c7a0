/** An outline: the register-free key of a repeated instruction sequence, made of its
    template instructions, the types of its arguments, the map from the template
    instructions' inputs to the arguments, and its return type. */
module Outlines {
  import opened JavaInt
  import opened Ordering
  import opened DexItems
  import opened OutlineInstructions

  datatype Outline = Outline(
    templateInstructions: seq<OutlineInstruction>,
    argumentTypes: seq<DexType>,
    argumentMap: seq<int>,
    returnType: DexType)

  function ArgumentCount(o: Outline): nat {
    |o.argumentTypes|
  }

  /** The prototype of the static method the outline becomes. */
  function BuildProto(o: Outline): (p: DexProto)
    ensures |p.parameters| == ArgumentCount(o)
  {
    DexProto(o.returnType, o.argumentTypes)
  }

  predicate WellFormedOutline(o: Outline) {
    forall k :: 0 <= k < |o.templateInstructions| ==> WellFormed(o.templateInstructions[k])
  }

  /** `equals`: pairwise equal template instructions, equal argument types, equal argument
      map and the same return type. */
  predicate Equals(a: Outline, b: Outline) {
    |a.templateInstructions| == |b.templateInstructions| &&
    (forall k :: 0 <= k < |a.templateInstructions| ==> a.templateInstructions[k] == b.templateInstructions[k]) &&
    a.argumentTypes == b.argumentTypes && a.argumentMap == b.argumentMap && a.returnType == b.returnType
  }

  /** Outline equality is structural: there is nothing else, in particular no concrete
      value number, it could depend on. */
  lemma EqualsIsIdentity(a: Outline, b: Outline)
    ensures Equals(a, b) <==> a == b
  {
    if Equals(a, b) {
      assert a.templateInstructions == b.templateInstructions;
    }
  }

  /** The template lists from position `i` on, compared pairwise; the first non-zero
      result decides. */
  function CompareTemplatesFrom(a: seq<OutlineInstruction>, b: seq<OutlineInstruction>, i: nat): int
    requires |a| == |b| && i <= |a|
    requires forall k :: 0 <= k < |a| ==> WellFormed(a[k]) && WellFormed(b[k])
    decreases |a| - i
  {
    if i == |a| then 0
    else
      var r := OutlineInstructions.Compare(a[i], b[i]);
      if r != 0 then r else CompareTemplatesFrom(a, b, i + 1)
  }

  /** The argument maps from position `i` on, compared by the difference of the first
      differing entries. */
  function CompareMapsFrom(a: seq<int>, b: seq<int>, i: nat): int
    requires |a| == |b| && i <= |a|
    decreases |a| - i
  {
    if i == |a| then 0
    else if a[i] - b[i] != 0 then a[i] - b[i]
    else CompareMapsFrom(a, b, i + 1)
  }

  /** `compareTo`: the prototypes first, then the number of template instructions, the
      template instructions, the size of the argument map, and its entries. */
  function Compare(a: Outline, b: Outline): int
    requires WellFormedOutline(a) && WellFormedOutline(b)
  {
    var r := CompareProtos(BuildProto(a), BuildProto(b));
    if r != 0 then r
    else if |a.templateInstructions| != |b.templateInstructions| then
      |a.templateInstructions| - |b.templateInstructions|
    else
      var r' := CompareTemplatesFrom(a.templateInstructions, b.templateInstructions, 0);
      if r' != 0 then r'
      else if |a.argumentMap| != |b.argumentMap| then |a.argumentMap| - |b.argumentMap|
      else CompareMapsFrom(a.argumentMap, b.argumentMap, 0)
  }

  lemma {:induction false} CompareTemplatesFromIsTotalOrder(
    a: seq<OutlineInstruction>, b: seq<OutlineInstruction>, c: seq<OutlineInstruction>, i: nat)
    requires |a| == |b| == |c| && i <= |a|
    requires forall k :: 0 <= k < |a| ==> WellFormed(a[k]) && WellFormed(b[k]) && WellFormed(c[k])
    ensures CompareTemplatesFrom(a, b, i) == 0 <==> a[i..] == b[i..]
    ensures CompareTemplatesFrom(b, a, i) == -CompareTemplatesFrom(a, b, i)
    ensures CompareTemplatesFrom(a, b, i) < 0 && CompareTemplatesFrom(b, c, i) < 0 ==>
      CompareTemplatesFrom(a, c, i) < 0
    decreases |a| - i
  {
    if i < |a| {
      CompareTemplatesFromIsTotalOrder(a, b, c, i + 1);
      OutlineInstructions.CompareIsTotalOrder(a[i], b[i], c[i]);
      OutlineInstructions.CompareIsTotalOrder(b[i], c[i], a[i]);
      OutlineInstructions.CompareIsTotalOrder(a[i], c[i], b[i]);
      assert a[i..] == [a[i]] + a[i + 1..];
      assert b[i..] == [b[i]] + b[i + 1..];
      CompareTemplatesFromIsTotalOrder(a, c, b, i + 1);
      CompareTemplatesFromIsTotalOrder(b, c, a, i + 1);
    }
  }

  lemma {:induction false} CompareMapsFromIsTotalOrder(a: seq<int>, b: seq<int>, c: seq<int>, i: nat)
    requires |a| == |b| == |c| && i <= |a|
    ensures CompareMapsFrom(a, b, i) == 0 <==> a[i..] == b[i..]
    ensures CompareMapsFrom(b, a, i) == -CompareMapsFrom(a, b, i)
    ensures CompareMapsFrom(a, b, i) < 0 && CompareMapsFrom(b, c, i) < 0 ==> CompareMapsFrom(a, c, i) < 0
    decreases |a| - i
  {
    if i < |a| {
      CompareMapsFromIsTotalOrder(a, b, c, i + 1);
      CompareMapsFromIsTotalOrder(a, c, b, i + 1);
      CompareMapsFromIsTotalOrder(b, c, a, i + 1);
      assert a[i..] == [a[i]] + a[i + 1..];
      assert b[i..] == [b[i]] + b[i + 1..];
    }
  }

  /** `compareTo` is zero exactly when `equals` holds, antisymmetric and transitive; it is
      the order the generated outline methods are named in. */
  lemma CompareIsTotalOrder(a: Outline, b: Outline, c: Outline)
    requires WellFormedOutline(a) && WellFormedOutline(b) && WellFormedOutline(c)
    ensures Compare(a, b) == 0 <==> Equals(a, b)
    ensures Compare(b, a) == -Compare(a, b)
    ensures Compare(a, b) < 0 && Compare(b, c) < 0 ==> Compare(a, c) < 0
  {
    EqualsIsIdentity(a, b);
    CompareProtosIsTotalOrder(BuildProto(a), BuildProto(b), BuildProto(c));
    CompareProtosIsTotalOrder(BuildProto(b), BuildProto(c), BuildProto(a));
    CompareProtosIsTotalOrder(BuildProto(a), BuildProto(c), BuildProto(b));
    var ta, tb, tc := a.templateInstructions, b.templateInstructions, c.templateInstructions;
    var ma, mb, mc := a.argumentMap, b.argumentMap, c.argumentMap;
    if |ta| == |tb| == |tc| {
      CompareTemplatesFromIsTotalOrder(ta, tb, tc, 0);
      CompareTemplatesFromIsTotalOrder(tb, tc, ta, 0);
      CompareTemplatesFromIsTotalOrder(ta, tc, tb, 0);
    } else if |ta| == |tb| {
      CompareTemplatesFromIsTotalOrder(ta, tb, ta, 0);
    } else if |tb| == |tc| {
      CompareTemplatesFromIsTotalOrder(tb, tc, tb, 0);
    } else if |ta| == |tc| {
      CompareTemplatesFromIsTotalOrder(ta, tc, ta, 0);
    }
    if |ma| == |mb| == |mc| {
      CompareMapsFromIsTotalOrder(ma, mb, mc, 0);
      CompareMapsFromIsTotalOrder(mb, mc, ma, 0);
      CompareMapsFromIsTotalOrder(ma, mc, mb, 0);
    } else if |ma| == |mb| {
      CompareMapsFromIsTotalOrder(ma, mb, ma, 0);
    } else if |mb| == |mc| {
      CompareMapsFromIsTotalOrder(mb, mc, mb, 0);
    } else if |ma| == |mc| {
      CompareMapsFromIsTotalOrder(ma, mc, ma, 0);
    }
    assert ta[0..] == ta && tb[0..] == tb && ma[0..] == ma && mb[0..] == mb;
    if BuildProto(a) == BuildProto(b) {
      assert a.returnType == b.returnType && a.argumentTypes == b.argumentTypes;
    }
  }

  /** At most this many template instructions take part in the hash. */
  const MAX_HASH_INSTRUCTIONS: nat := 5

  /** The hash loop from position `i`, with the running `hash` and `hashPart`. */
  function HashFrom(ts: seq<OutlineInstruction>, h: ItemHashes, i: nat, hash: int, hashPart: int): (r: int)
    requires i <= |ts|
    decreases |ts| - i
  {
    if i < |ts| && i < MAX_HASH_INSTRUCTIONS then
      var next := HashStep(hash, hashPart, OutlineInstructions.Hash(ts[i], h));
      HashFrom(ts, h, i + 1, next.0, next.1)
    else hash
  }

  /** One round of the hash loop: shift `hashPart` by four bits, add the instruction's hash,
      and fold it into `hash`, all in 32-bit arithmetic. The new `hash` and `hashPart`. */
  function HashStep(hash: int, hashPart: int, instructionHash: int): (int, int) {
    var part := Wrap32(Wrap32(hashPart * 16) + instructionHash);
    (Wrap32(hash * 3 + part), part)
  }

  /** `hashCode`, in 32-bit arithmetic. */
  function Hash(o: Outline, h: ItemHashes): int {
    HashFrom(o.templateInstructions, h, 0, Wrap32(|o.templateInstructions|), 0)
  }

  lemma {:induction false} HashFromSeesOnlyFirstInstructions(
    a: seq<OutlineInstruction>, b: seq<OutlineInstruction>, h: ItemHashes, i: nat, hash: int, hashPart: int)
    requires |a| == |b| && i <= |a|
    requires forall k :: i <= k < |a| && k < MAX_HASH_INSTRUCTIONS ==> a[k] == b[k]
    ensures HashFrom(a, h, i, hash, hashPart) == HashFrom(b, h, i, hash, hashPart)
    decreases |a| - i
  {
    if i < |a| && i < MAX_HASH_INSTRUCTIONS {
      assert a[i] == b[i];
      var next := HashStep(hash, hashPart, OutlineInstructions.Hash(a[i], h));
      HashFromSeesOnlyFirstInstructions(a, b, h, i + 1, next.0, next.1);
    }
  }

  /** The hash depends only on the number of template instructions and the first five of
      them: outlines that differ in arguments, return type or later instructions collide,
      and equal outlines hash alike. */
  lemma HashSeesOnlySizeAndFirstFive(a: Outline, b: Outline, h: ItemHashes)
    requires |a.templateInstructions| == |b.templateInstructions|
    requires forall k :: 0 <= k < |a.templateInstructions| && k < MAX_HASH_INSTRUCTIONS ==>
      a.templateInstructions[k] == b.templateInstructions[k]
    ensures Hash(a, h) == Hash(b, h)
    ensures IsInt32(Hash(a, h))
  {
    HashFromSeesOnlyFirstInstructions(a.templateInstructions, b.templateInstructions, h, 0,
      Wrap32(|a.templateInstructions|), 0);
    HashIsInt32(a.templateInstructions, h, 0, Wrap32(|a.templateInstructions|), 0);
  }

  lemma {:induction false} HashIsInt32(ts: seq<OutlineInstruction>, h: ItemHashes, i: nat, hash: int, hashPart: int)
    requires i <= |ts| && IsInt32(hash)
    ensures IsInt32(HashFrom(ts, h, i, hash, hashPart))
    decreases |ts| - i
  {
    if i < |ts| && i < MAX_HASH_INSTRUCTIONS {
      var next := HashStep(hash, hashPart, OutlineInstructions.Hash(ts[i], h));
      HashIsInt32(ts, h, i + 1, next.0, next.1);
    }
  }
}
