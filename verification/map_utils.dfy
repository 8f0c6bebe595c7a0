/** Map helpers: key remapping with merging, identity-entry removal, cloning. A Java map
    being iterated is a sequence of entries in iteration order; a map built or edited in
    place is a Dafny `map`. */
module MapUtils {
  import opened Wrappers

  /** The keys `transform` produces: every non-null image of an input key. */
  ghost function NewKeys<K, V, K2>(entries: seq<(K, V)>, keyMapping: K -> Option<K2>): set<K2> {
    set e | e in entries && keyMapping(e.0).Some? :: keyMapping(e.0).value
  }

  /** The mapped values of the entries whose key maps to `nk`, in iteration order. */
  function ValuesFor<K, V, K2(==), V2>(
    entries: seq<(K, V)>, nk: K2, keyMapping: K -> Option<K2>, valueMapping: V -> V2): seq<V2>
    decreases |entries|
  {
    if entries == [] then []
    else
      var last := entries[|entries| - 1];
      ValuesFor(entries[..|entries| - 1], nk, keyMapping, valueMapping)
        + (if keyMapping(last.0) == Some(nk) then [valueMapping(last.1)] else [])
  }

  /** Left fold of the merger over a non-empty sequence of values. */
  function MergeAll<V>(vs: seq<V>, merger: (V, V) -> V): V
    requires |vs| > 0
    decreases |vs|
  {
    if |vs| == 1 then vs[0] else merger(MergeAll(vs[..|vs| - 1], merger), vs[|vs| - 1])
  }

  /** One iteration of the loop in `transform`: put the new value, then merge it with the
      value it displaced, if any. */
  function Step<K, V, K2(==), V2>(
    acc: map<K2, V2>, e: (K, V), keyMapping: K -> Option<K2>, valueMapping: V -> V2,
    valueMerger: (V2, V2) -> V2): map<K2, V2>
  {
    match keyMapping(e.0)
    case None => acc
    case Some(nk) =>
      var newValue := valueMapping(e.1);
      var existing := if nk in acc then Some(acc[nk]) else None;
      var acc' := acc[nk := newValue];
      if existing.Some? then acc'[nk := valueMerger(existing.value, newValue)] else acc'
  }

  /** The map `transform` has built after iterating over `entries`. */
  function TransformFold<K, V, K2(==), V2>(
    entries: seq<(K, V)>, keyMapping: K -> Option<K2>, valueMapping: V -> V2,
    valueMerger: (V2, V2) -> V2): map<K2, V2>
    decreases |entries|
  {
    if entries == [] then map[]
    else
      Step(TransformFold(entries[..|entries| - 1], keyMapping, valueMapping, valueMerger),
           entries[|entries| - 1], keyMapping, valueMapping, valueMerger)
  }

  lemma NewKeysSnoc<K, V, K2>(init: seq<(K, V)>, last: (K, V), keyMapping: K -> Option<K2>)
    ensures NewKeys(init + [last], keyMapping) ==
      NewKeys(init, keyMapping) + (if keyMapping(last.0).Some? then {keyMapping(last.0).value} else {})
  {
    var s := init + [last];
    assert forall e :: e in s <==> e in init || e == last;
  }

  lemma ValuesForSnoc<K, V, K2, V2>(
    init: seq<(K, V)>, last: (K, V), nk: K2, keyMapping: K -> Option<K2>, valueMapping: V -> V2)
    ensures ValuesFor(init + [last], nk, keyMapping, valueMapping) ==
      ValuesFor(init, nk, keyMapping, valueMapping)
        + (if keyMapping(last.0) == Some(nk) then [valueMapping(last.1)] else [])
  {
    assert (init + [last])[..|init|] == init;
  }

  /** A key outside the non-null image collects no values. */
  lemma {:induction false} ValuesForOutsideImage<K, V, K2, V2>(
    entries: seq<(K, V)>, nk: K2, keyMapping: K -> Option<K2>, valueMapping: V -> V2)
    requires nk !in NewKeys(entries, keyMapping)
    ensures ValuesFor(entries, nk, keyMapping, valueMapping) == []
    decreases |entries|
  {
    if entries != [] {
      var init := entries[..|entries| - 1];
      var last := entries[|entries| - 1];
      assert entries == init + [last];
      NewKeysSnoc(init, last, keyMapping);
      ValuesForOutsideImage(init, nk, keyMapping, valueMapping);
      ValuesForSnoc(init, last, nk, keyMapping, valueMapping);
    }
  }

  /** The keys `transform` produces are the non-null images of the input keys, and there
      are at most as many as there are input entries. */
  lemma {:induction false} TransformFoldKeys<K, V, K2, V2>(
    entries: seq<(K, V)>, keyMapping: K -> Option<K2>, valueMapping: V -> V2,
    valueMerger: (V2, V2) -> V2)
    ensures TransformFold(entries, keyMapping, valueMapping, valueMerger).Keys == NewKeys(entries, keyMapping)
    ensures |TransformFold(entries, keyMapping, valueMapping, valueMerger)| <= |entries|
    decreases |entries|
  {
    if entries != [] {
      var init := entries[..|entries| - 1];
      var last := entries[|entries| - 1];
      assert entries == init + [last];
      NewKeysSnoc(init, last, keyMapping);
      TransformFoldKeys(init, keyMapping, valueMapping, valueMerger);
    }
  }

  /** Each value of the result is the merge, in iteration order, of the mapped values of
      the entries sent to its key. */
  lemma {:induction false} TransformFoldValues<K, V, K2, V2>(
    entries: seq<(K, V)>, keyMapping: K -> Option<K2>, valueMapping: V -> V2,
    valueMerger: (V2, V2) -> V2, nk: K2)
    requires nk in TransformFold(entries, keyMapping, valueMapping, valueMerger)
    ensures |ValuesFor(entries, nk, keyMapping, valueMapping)| > 0
    ensures TransformFold(entries, keyMapping, valueMapping, valueMerger)[nk] ==
      MergeAll(ValuesFor(entries, nk, keyMapping, valueMapping), valueMerger)
    decreases |entries|
  {
    var init := entries[..|entries| - 1];
    var last := entries[|entries| - 1];
    assert entries == init + [last];
    var before := TransformFold(init, keyMapping, valueMapping, valueMerger);
    var vs := ValuesFor(init, nk, keyMapping, valueMapping);
    ValuesForSnoc(init, last, nk, keyMapping, valueMapping);
    if keyMapping(last.0) == Some(nk) {
      var v := valueMapping(last.1);
      if nk in before {
        TransformFoldValues(init, keyMapping, valueMapping, valueMerger, nk);
        assert (vs + [v])[..|vs|] == vs;
      } else {
        TransformFoldKeys(init, keyMapping, valueMapping, valueMerger);
        ValuesForOutsideImage(init, nk, keyMapping, valueMapping);
      }
    } else {
      var after := Step(before, last, keyMapping, valueMapping, valueMerger);
      assert TransformFold(entries, keyMapping, valueMapping, valueMerger) == after;
      assert nk in before && after[nk] == before[nk];
      TransformFoldValues(init, keyMapping, valueMapping, valueMerger, nk);
      assert ValuesFor(entries, nk, keyMapping, valueMapping) == vs + [];
      assert vs + [] == vs;
    }
  }

  /** Re-keys and re-values a map. Entries whose key maps to null are dropped; entries
      that collide on the new key are merged in iteration order. */
  method Transform<K, V, K2(==), V2>(
    entries: seq<(K, V)>, keyMapping: K -> Option<K2>, valueMapping: V -> V2, valueMerger: (V2, V2) -> V2)
    returns (result: map<K2, V2>)
    ensures result.Keys == NewKeys(entries, keyMapping)
    ensures forall nk :: nk in result ==>
      |ValuesFor(entries, nk, keyMapping, valueMapping)| > 0 &&
      result[nk] == MergeAll(ValuesFor(entries, nk, keyMapping, valueMapping), valueMerger)
    ensures |result| <= |entries|
  {
    result := map[];
    var i := 0;
    while i < |entries|
      invariant 0 <= i <= |entries|
      invariant result == TransformFold(entries[..i], keyMapping, valueMapping, valueMerger)
    {
      assert entries[..i + 1][..i] == entries[..i];
      var newKey := keyMapping(entries[i].0);
      if newKey.Some? {
        var nk := newKey.value;
        var newValue := valueMapping(entries[i].1);
        var existing := if nk in result then Some(result[nk]) else None;
        result := result[nk := newValue];
        if existing.Some? {
          result := result[nk := valueMerger(existing.value, newValue)];
        }
      }
      i := i + 1;
    }
    assert entries[..i] == entries;
    TransformFoldKeys(entries, keyMapping, valueMapping, valueMerger);
    forall nk | nk in result
      ensures |ValuesFor(entries, nk, keyMapping, valueMapping)| > 0
      ensures result[nk] == MergeAll(ValuesFor(entries, nk, keyMapping, valueMapping), valueMerger)
    {
      TransformFoldValues(entries, keyMapping, valueMapping, valueMerger, nk);
    }
  }

  /** Removes every entry that maps a key to itself. */
  function RemoveIdentityMappings<T(==)>(m: map<T, T>): (r: map<T, T>)
    ensures r.Keys <= m.Keys
    ensures forall k :: k in r ==> r[k] == m[k] && r[k] != k
    ensures forall k :: k in m && m[k] != k ==> k in r
  {
    map k | k in m && m[k] != k :: m[k]
  }

  /** Removing identity mappings a second time changes nothing. */
  lemma RemoveIdentityMappingsIdempotent<T>(m: map<T, T>)
    ensures RemoveIdentityMappings(RemoveIdentityMappings(m)) == RemoveIdentityMappings(m)
  {
  }

  /** Puts a cloned copy of every entry of `mapToClone` into `newMap`. */
  method Clone<K, V>(mapToClone: map<K, V>, newMap: map<K, V>, valueCloner: V -> V)
    returns (r: map<K, V>)
    ensures r.Keys == mapToClone.Keys + newMap.Keys
    ensures forall k :: k in mapToClone ==> r[k] == valueCloner(mapToClone[k])
    ensures forall k :: k in newMap && k !in mapToClone ==> r[k] == newMap[k]
  {
    r := newMap;
    var todo := mapToClone.Keys;
    while todo != {}
      invariant todo <= mapToClone.Keys
      invariant r.Keys == (mapToClone.Keys - todo) + newMap.Keys
      invariant forall k :: k in mapToClone && k !in todo ==> r[k] == valueCloner(mapToClone[k])
      invariant forall k :: k in newMap && k !in mapToClone ==> r[k] == newMap[k]
      invariant forall k :: k in newMap && k in todo ==> r[k] == newMap[k]
      decreases todo
    {
      var k :| k in todo;
      r := r[k := valueCloner(mapToClone[k])];
      todo := todo - {k};
    }
  }

  /** A key-ignoring function that returns what the supplier supplies: every key gets the
      same value, so a `computeIfAbsent` with it cannot depend on the key. */
  function IgnoreKey<T(!new), R>(supplier: () -> R): (f: T -> R)
    ensures forall t1, t2 :: f(t1) == f(t2)
    ensures forall t :: f(t) == supplier()
  {
    _ => supplier()
  }
}
