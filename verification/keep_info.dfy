/** The mutable keep-info collection: per-class, per-method and per-field keep info, and
    the rule instances that contributed to them. */
module KeepInfo {

  /** The aspects of an item a keep rule can protect. */
  datatype Restriction = NoShrinking | NoOptimization | NoMinification | NoAccessModification

  /** The keep-info lattice, kept abstract: the aspects that are protected and whether
      the item is pinned. Bottom protects nothing; top protects everything and pins. */
  datatype Info = Info(pinned: bool, kept: set<Restriction>)

  const BOTTOM: Info := Info(false, {})
  const TOP: Info := Info(true, {NoShrinking, NoOptimization, NoMinification, NoAccessModification})

  predicate IsTop(i: Info) { i == TOP }

  predicate IsBottom(i: Info) { i == BOTTOM }

  predicate IsPinned(i: Info) { i.pinned }

  /** The lattice order. */
  predicate Leq(a: Info, b: Info) { (a.pinned ==> b.pinned) && a.kept <= b.kept }

  /** `joiner.merge(other)`: the least upper bound. */
  function Merge(a: Info, b: Info): (r: Info)
    ensures Leq(a, r) && Leq(b, r)
    ensures forall c :: Leq(a, c) && Leq(b, c) ==> Leq(r, c)
  {
    Info(a.pinned || b.pinned, a.kept + b.kept)
  }

  /** `joiner.pin()`. */
  function Pin(a: Info): (r: Info)
    ensures Leq(a, r) && IsPinned(r)
  {
    a.(pinned := true)
  }

  /** `joiner.top()`. */
  function Top(a: Info): (r: Info)
    ensures Leq(a, r) && IsTop(r)
  {
    BottomAndTopAreExtremes(a);
    TOP
  }

  /** `info.builder().unpin().build()`. */
  function Unpin(a: Info): (r: Info)
    ensures !IsPinned(r) && r.kept == a.kept
  {
    a.(pinned := false)
  }

  lemma BottomAndTopAreExtremes(a: Info)
    ensures Leq(BOTTOM, a) && Leq(a, TOP)
    ensures Leq(TOP, a) ==> IsTop(a)
  {
    assert a.kept <= TOP.kept by {
      forall x | x in a.kept ensures x in TOP.kept {
        match x
        case NoShrinking =>
        case NoOptimization =>
        case NoMinification =>
        case NoAccessModification =>
      }
    }
  }

  type TypeRef = nat

  /** A method or field reference: its holder type and its name. */
  datatype MemberRef = MemberRef(holder: TypeRef, name: nat)

  datatype Collection = Collection(
    classInfo: map<TypeRef, Info>,
    methodInfo: map<MemberRef, Info>,
    fieldInfo: map<MemberRef, Info>,
    classRules: map<TypeRef, Info>,
    methodRules: map<MemberRef, Info>,
    fieldRules: map<MemberRef, Info>)

  const EMPTY: Collection := Collection(map[], map[], map[], map[], map[], map[])

  /** `getOrDefault(key, bottom())`. */
  function Get<K>(m: map<K, Info>, k: K): Info {
    if k in m then m[k] else BOTTOM
  }

  function GetClassInfo(c: Collection, t: TypeRef): Info { Get(c.classInfo, t) }

  function GetMethodInfo(c: Collection, m: MemberRef): Info { Get(c.methodInfo, m) }

  function GetFieldInfo(c: Collection, f: MemberRef): Info { Get(c.fieldInfo, f) }

  /** An empty collection answers bottom for every item. */
  lemma EmptyDefaultsToBottom(t: TypeRef, m: MemberRef, f: MemberRef)
    ensures IsBottom(GetClassInfo(EMPTY, t))
    ensures IsBottom(GetMethodInfo(EMPTY, m)) && IsBottom(GetFieldInfo(EMPTY, f))
  {
  }

  /** The shared body of `joinClass`/`joinMethod`/`joinField`: nothing happens for top;
      otherwise the joiner function runs on the current info and the map is written only
      when the joined info differs from it. */
  function JoinEntry<K(==)>(m: map<K, Info>, k: K, fn: Info -> Info): (r: map<K, Info>)
    ensures IsTop(Get(m, k)) ==> r == m
    ensures !IsTop(Get(m, k)) ==> Get(r, k) == fn(Get(m, k))
    ensures fn(Get(m, k)) == Get(m, k) ==> r == m
    ensures r - {k} == m - {k}
  {
    var info := Get(m, k);
    if IsTop(info) then m
    else
      var joined := fn(info);
      if info != joined then m[k := joined] else m
  }

  function JoinClass(c: Collection, t: TypeRef, fn: Info -> Info): Collection {
    c.(classInfo := JoinEntry(c.classInfo, t, fn))
  }

  function JoinMethod(c: Collection, m: MemberRef, fn: Info -> Info): Collection {
    c.(methodInfo := JoinEntry(c.methodInfo, m, fn))
  }

  function JoinField(c: Collection, f: MemberRef, fn: Info -> Info): Collection {
    c.(fieldInfo := JoinEntry(c.fieldInfo, f, fn))
  }

  /** With a joiner function that only adds (merge, pin, top), a join never loses keep
      info, and it changes only the targeted entry. */
  lemma JoinIsInflationary(c: Collection, t: TypeRef, m: MemberRef, fn: Info -> Info)
    requires forall i :: Leq(i, fn(i))
    ensures Leq(GetClassInfo(c, t), GetClassInfo(JoinClass(c, t, fn), t))
    ensures Leq(GetMethodInfo(c, m), GetMethodInfo(JoinMethod(c, m, fn), m))
    ensures Leq(GetFieldInfo(c, m), GetFieldInfo(JoinField(c, m, fn), m))
    ensures JoinClass(c, t, fn).methodInfo == c.methodInfo
    ensures JoinMethod(c, m, fn).classInfo == c.classInfo
  {
    assert Leq(TOP, TOP);
  }

  /** `keepClass` makes the class top; `pinClass` makes it pinned. */
  lemma KeepAndPinClass(c: Collection, t: TypeRef)
    ensures IsTop(GetClassInfo(JoinClass(c, t, Top), t))
    ensures IsPinned(GetClassInfo(JoinClass(c, t, Pin), t))
  {
  }

  /** The shared body of `evaluateClassRule`/`evaluateFieldRule`/`evaluateMethodRule`:
      a bottom rule does nothing; otherwise it is merged into both the keep info and the
      rule-instance map (starting from an empty joiner there). */
  function EvaluateEntry<K(==)>(info: map<K, Info>, rules: map<K, Info>, k: K, minimum: Info)
    : (r: (map<K, Info>, map<K, Info>))
    ensures IsBottom(minimum) ==> r == (info, rules)
    ensures !IsBottom(minimum) ==> r.0 == JoinEntry(info, k, i => Merge(i, minimum))
    ensures !IsBottom(minimum) ==> r.1 == rules[k := Merge(Get(rules, k), minimum)]
  {
    if IsBottom(minimum) then (info, rules)
    else (JoinEntry(info, k, i => Merge(i, minimum)), rules[k := Merge(Get(rules, k), minimum)])
  }

  function EvaluateClassRule(c: Collection, t: TypeRef, minimum: Info): Collection {
    var (info, rules) := EvaluateEntry(c.classInfo, c.classRules, t, minimum);
    c.(classInfo := info, classRules := rules)
  }

  function EvaluateMethodRule(c: Collection, m: MemberRef, minimum: Info): Collection {
    var (info, rules) := EvaluateEntry(c.methodInfo, c.methodRules, m, minimum);
    c.(methodInfo := info, methodRules := rules)
  }

  function EvaluateFieldRule(c: Collection, f: MemberRef, minimum: Info): Collection {
    var (info, rules) := EvaluateEntry(c.fieldInfo, c.fieldRules, f, minimum);
    c.(fieldInfo := info, fieldRules := rules)
  }

  /** After a rule is evaluated, the item's info and recorded rule instance both cover it. */
  lemma EvaluatedRuleIsCovered(c: Collection, t: TypeRef, m: MemberRef, f: MemberRef, minimum: Info)
    ensures Leq(minimum, GetClassInfo(EvaluateClassRule(c, t, minimum), t))
    ensures !IsBottom(minimum) ==> Leq(minimum, Get(EvaluateClassRule(c, t, minimum).classRules, t))
    ensures Leq(minimum, GetMethodInfo(EvaluateMethodRule(c, m, minimum), m))
    ensures !IsBottom(minimum) ==> Leq(minimum, Get(EvaluateMethodRule(c, m, minimum).methodRules, m))
    ensures Leq(minimum, GetFieldInfo(EvaluateFieldRule(c, f, minimum), f))
    ensures !IsBottom(minimum) ==> Leq(minimum, Get(EvaluateFieldRule(c, f, minimum).fieldRules, f))
  {
    BottomAndTopAreExtremes(minimum);
  }

  function RemoveKeepInfoForPrunedItems(c: Collection, removed: set<TypeRef>): (r: Collection)
    ensures r.classInfo.Keys == c.classInfo.Keys - removed
    ensures forall m :: m in r.methodInfo <==> m in c.methodInfo && m.holder !in removed
    ensures forall f :: f in r.fieldInfo <==> f in c.fieldInfo && f.holder !in removed
    ensures r.classRules == c.classRules && r.methodRules == c.methodRules && r.fieldRules == c.fieldRules
  {
    c.(classInfo := map t | t in c.classInfo && t !in removed :: c.classInfo[t],
       methodInfo := map m | m in c.methodInfo && m.holder !in removed :: c.methodInfo[m],
       fieldInfo := map f | f in c.fieldInfo && f.holder !in removed :: c.fieldInfo[f])
  }

  /** Pruning keeps the info of every surviving item and then answers bottom for every
      pruned class and every member of one. */
  lemma PrunedItemsBecomeBottom(c: Collection, removed: set<TypeRef>, t: TypeRef, m: MemberRef)
    ensures t in removed ==> IsBottom(GetClassInfo(RemoveKeepInfoForPrunedItems(c, removed), t))
    ensures t !in removed ==> GetClassInfo(RemoveKeepInfoForPrunedItems(c, removed), t) == GetClassInfo(c, t)
    ensures m.holder in removed ==> IsBottom(GetMethodInfo(RemoveKeepInfoForPrunedItems(c, removed), m))
    ensures m.holder !in removed ==>
      GetMethodInfo(RemoveKeepInfoForPrunedItems(c, removed), m) == GetMethodInfo(c, m)
    ensures m.holder in removed ==> IsBottom(GetFieldInfo(RemoveKeepInfoForPrunedItems(c, removed), m))
  {
  }

  function UnsafeUnpinMethod(c: Collection, m: MemberRef): (r: Collection)
    ensures m in c.methodInfo && IsPinned(c.methodInfo[m]) ==>
      r.methodInfo == c.methodInfo[m := Unpin(c.methodInfo[m])]
    ensures !(m in c.methodInfo && IsPinned(c.methodInfo[m])) ==> r == c
    ensures r.methodInfo.Keys == c.methodInfo.Keys
    ensures r.(methodInfo := c.methodInfo) == c
  {
    if m in c.methodInfo && IsPinned(c.methodInfo[m]) then
      c.(methodInfo := c.methodInfo[m := Unpin(c.methodInfo[m])])
    else c
  }

  /** `forEachPinnedType`/`Method`/`Field`: visits every key whose info is pinned, once
      each, in some iteration order of the map. */
  method ForEachPinned<K(==)>(m: map<K, Info>) returns (visited: seq<K>)
    ensures forall k :: k in visited <==> k in m && IsPinned(m[k])
    ensures forall i, j :: 0 <= i < j < |visited| ==> visited[i] != visited[j]
  {
    visited := [];
    var todo := m.Keys;
    while todo != {}
      invariant todo <= m.Keys
      invariant forall k :: k in visited <==> k in m && k !in todo && IsPinned(m[k])
      invariant forall i, j :: 0 <= i < j < |visited| ==> visited[i] != visited[j]
      decreases todo
    {
      var k :| k in todo;
      if IsPinned(m[k]) {
        visited := visited + [k];
      }
      todo := todo - {k};
    }
  }

  /** What a definition supplier knows about a type. */
  datatype ClassDef = ClassDef(isProgramClass: bool, methods: set<MemberRef>, fields: set<MemberRef>)

  /** `getMethodInfo(DexMethod, definitions)`: bottom for a non-program or missing holder and
      for a method the holder does not define; the stored info otherwise. */
  function GetMethodInfoByReference(c: Collection, m: MemberRef, definitions: map<TypeRef, ClassDef>)
    : (r: Info)
    ensures (m.holder !in definitions || !definitions[m.holder].isProgramClass) ==> IsBottom(r)
    ensures m.holder in definitions && m !in definitions[m.holder].methods ==> IsBottom(r)
    ensures !IsBottom(r) ==> m in c.methodInfo && r == c.methodInfo[m]
    ensures (m.holder in definitions && definitions[m.holder].isProgramClass &&
             m in definitions[m.holder].methods) ==> r == GetMethodInfo(c, m)
  {
    if m.holder !in definitions || !definitions[m.holder].isProgramClass then BOTTOM
    else if m !in definitions[m.holder].methods then BOTTOM
    else GetMethodInfo(c, m)
  }

  function GetFieldInfoByReference(c: Collection, f: MemberRef, definitions: map<TypeRef, ClassDef>)
    : (r: Info)
    ensures (f.holder !in definitions || !definitions[f.holder].isProgramClass) ==> IsBottom(r)
    ensures f.holder in definitions && f !in definitions[f.holder].fields ==> IsBottom(r)
    ensures !IsBottom(r) ==> f in c.fieldInfo && r == c.fieldInfo[f]
    ensures (f.holder in definitions && definitions[f.holder].isProgramClass &&
             f in definitions[f.holder].fields) ==> r == GetFieldInfo(c, f)
  {
    if f.holder !in definitions || !definitions[f.holder].isProgramClass then BOTTOM
    else if f !in definitions[f.holder].fields then BOTTOM
    else GetFieldInfo(c, f)
  }
}
