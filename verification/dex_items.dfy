/** The DEX items an outline is built from: types, prototypes and method references, each
    compared through the strings that identify it. */
module DexItems {
  import opened Ordering
  import Sub

  /** A type, identified by its descriptor. */
  datatype DexType = DexType(descriptor: string)

  datatype DexProto = DexProto(returnType: DexType, parameters: seq<DexType>)

  datatype DexMethod = DexMethod(holder: DexType, proto: DexProto, name: string)

  const VOID: DexType := DexType("V")

  /** `NumericType.dexTypeFor`: the primitive type a numeric type stands for. */
  function DexTypeFor(t: Sub.NumericType): (r: DexType)
    ensures r != VOID && |r.descriptor| == 1
  {
    match t
    case BYTE => DexType("B")
    case CHAR => DexType("C")
    case SHORT => DexType("S")
    case INT => DexType("I")
    case LONG => DexType("J")
    case FLOAT => DexType("F")
    case DOUBLE => DexType("D")
  }

  function Descriptors(ts: seq<DexType>): (r: seq<string>)
    ensures |r| == |ts| && forall k :: 0 <= k < |ts| ==> r[k] == ts[k].descriptor
  {
    seq(|ts|, k requires 0 <= k < |ts| => ts[k].descriptor)
  }

  lemma DescriptorsInjective(a: seq<DexType>, b: seq<DexType>)
    requires Descriptors(a) == Descriptors(b)
    ensures a == b
  {
    assert |a| == |Descriptors(a)|;
    forall k | 0 <= k < |a| ensures a[k] == b[k] {
      assert a[k].descriptor == Descriptors(a)[k];
    }
  }

  function CompareTypes(a: DexType, b: DexType): int {
    CompareStrings(a.descriptor, b.descriptor)
  }

  /** The strings a prototype is compared by: the return type, then the parameters. */
  function ProtoKey(p: DexProto): seq<string> {
    [p.returnType.descriptor] + Descriptors(p.parameters)
  }

  function CompareProtos(a: DexProto, b: DexProto): int {
    CompareStringLists(ProtoKey(a), ProtoKey(b))
  }

  /** The strings a method is compared by: the holder, the name, then the prototype. */
  function MethodKey(m: DexMethod): seq<string> {
    [m.holder.descriptor, m.name] + ProtoKey(m.proto)
  }

  function CompareMethods(a: DexMethod, b: DexMethod): int {
    CompareStringLists(MethodKey(a), MethodKey(b))
  }

  lemma ProtoKeyInjective(a: DexProto, b: DexProto)
    requires ProtoKey(a) == ProtoKey(b)
    ensures a == b
  {
    assert ProtoKey(a)[0] == a.returnType.descriptor;
    assert ProtoKey(a)[1..] == Descriptors(a.parameters);
    assert ProtoKey(b)[1..] == Descriptors(b.parameters);
    DescriptorsInjective(a.parameters, b.parameters);
  }

  lemma MethodKeyInjective(a: DexMethod, b: DexMethod)
    requires MethodKey(a) == MethodKey(b)
    ensures a == b
  {
    assert MethodKey(a)[0] == a.holder.descriptor && MethodKey(a)[1] == a.name;
    assert MethodKey(a)[2..] == ProtoKey(a.proto);
    assert MethodKey(b)[2..] == ProtoKey(b.proto);
    ProtoKeyInjective(a.proto, b.proto);
  }

  lemma CompareTypesIsTotalOrder(a: DexType, b: DexType, c: DexType)
    ensures CompareTypes(a, b) == 0 <==> a == b
    ensures CompareTypes(b, a) == -CompareTypes(a, b)
    ensures CompareTypes(a, b) < 0 && CompareTypes(b, c) < 0 ==> CompareTypes(a, c) < 0
  {
    CompareStringsIsTotalOrder(a.descriptor, b.descriptor, c.descriptor);
  }

  lemma CompareProtosIsTotalOrder(a: DexProto, b: DexProto, c: DexProto)
    ensures CompareProtos(a, b) == 0 <==> a == b
    ensures CompareProtos(b, a) == -CompareProtos(a, b)
    ensures CompareProtos(a, b) < 0 && CompareProtos(b, c) < 0 ==> CompareProtos(a, c) < 0
  {
    CompareStringListsIsTotalOrder(ProtoKey(a), ProtoKey(b), ProtoKey(c));
    if ProtoKey(a) == ProtoKey(b) {
      ProtoKeyInjective(a, b);
    }
  }

  lemma CompareMethodsIsTotalOrder(a: DexMethod, b: DexMethod, c: DexMethod)
    ensures CompareMethods(a, b) == 0 <==> a == b
    ensures CompareMethods(b, a) == -CompareMethods(a, b)
    ensures CompareMethods(a, b) < 0 && CompareMethods(b, c) < 0 ==> CompareMethods(a, c) < 0
  {
    CompareStringListsIsTotalOrder(MethodKey(a), MethodKey(b), MethodKey(c));
    if MethodKey(a) == MethodKey(b) {
      MethodKeyInjective(a, b);
    }
  }
}
