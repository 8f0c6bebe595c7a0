/** Abstract values of the static fields of a class, collected while its class initializer
    is analysed; only enum classes keep any. */
module StaticFieldValues {
  import opened Wrappers

  type FieldRef = nat

  /** A static field definition: its reference, its name, and whether it is an enum field. */
  datatype Field = Field(ref: FieldRef, name: nat, isEnum: bool)

  /** The object state of an instance. `EnumValues` is the state of an enum's values
      array, whose per-ordinal states are looked up by a function outside this model. */
  datatype ObjectState = EmptyState | Known(id: nat) | EnumValues(id: nat)

  datatype AbstractValue = Zero | Unknown | SingleField(state: ObjectState) | OtherValue

  datatype Values =
    | EmptyStaticValues
    | EnumStaticFieldValues(
        enumAbstractValues: map<FieldRef, AbstractValue>,
        valuesField: Option<FieldRef>,
        valuesAbstractValue: Option<AbstractValue>)

  /** The builders; the enum builder keeps the entries in the order they were put. */
  datatype Builder =
    | EmptyBuilder
    | EnumBuilder(entries: seq<(FieldRef, AbstractValue)>, valuesField: Option<FieldRef>,
                  valuesValue: Option<AbstractValue>)

  datatype Error =
    | DuplicateKey                    // thrown by the immutable map builder
    | NullValuesValue                 // dereference of a values value that was never recorded
    | AssertionFailure

  function NewBuilder(classIsEnum: bool): (b: Builder)
    ensures b.EnumBuilder? <==> classIsEnum
    ensures b.EnumBuilder? ==> b.entries == [] && b.valuesField == None && b.valuesValue == None
  {
    if classIsEnum then EnumBuilder([], None, None) else EmptyBuilder
  }

  /** `recordStaticField`, with `valuesName` the factory's name of the enum values field. */
  function RecordStaticField(b: Builder, f: Field, value: AbstractValue, valuesName: nat): (r: Builder)
    ensures b.EmptyBuilder? ==> r == b
    ensures b.EnumBuilder? && f.name == valuesName ==>
      r == b.(valuesField := Some(f.ref), valuesValue := Some(value))
    ensures b.EnumBuilder? && f.name != valuesName && f.isEnum ==>
      r == b.(entries := b.entries + [(f.ref, value)])
    ensures b.EnumBuilder? && f.name != valuesName && !f.isEnum ==> r == b
  {
    match b
    case EmptyBuilder => b
    case EnumBuilder(entries, _, _) =>
      if f.name == valuesName then b.(valuesField := Some(f.ref), valuesValue := Some(value))
      else if f.isEnum then b.(entries := entries + [(f.ref, value)])
      else b
  }

  function RecordAll(b: Builder, records: seq<(Field, AbstractValue)>, valuesName: nat): Builder
    decreases |records|
  {
    if records == [] then b
    else RecordAll(RecordStaticField(b, records[0].0, records[0].1, valuesName), records[1..], valuesName)
  }

  predicate DistinctKeys(entries: seq<(FieldRef, AbstractValue)>) {
    forall i, j :: 0 <= i < j < |entries| ==> entries[i].0 != entries[j].0
  }

  function ToMap(entries: seq<(FieldRef, AbstractValue)>): (m: map<FieldRef, AbstractValue>)
    requires DistinctKeys(entries)
    ensures forall i :: 0 <= i < |entries| ==> entries[i].0 in m && m[entries[i].0] == entries[i].1
    ensures forall k :: k in m ==> exists i :: 0 <= i < |entries| && entries[i].0 == k
  {
    map i | 0 <= i < |entries| :: entries[i].0 := entries[i].1
  }

  function Build(b: Builder): (r: Result<Values, Error>)
    ensures b.EmptyBuilder? ==> r == Success(EmptyStaticValues)
    ensures b.EnumBuilder? && !DistinctKeys(b.entries) ==> r.Failure? && r.error.DuplicateKey?
    ensures b.EnumBuilder? && DistinctKeys(b.entries) ==>
      (r == Success(EmptyStaticValues) <==> b.valuesValue == None && b.entries == [])
    ensures r.Success? && r.value.EnumStaticFieldValues? ==>
      b.EnumBuilder? && r.value.valuesAbstractValue == b.valuesValue && r.value.valuesField == b.valuesField &&
      (forall i :: 0 <= i < |b.entries| ==>
         b.entries[i].0 in r.value.enumAbstractValues && r.value.enumAbstractValues[b.entries[i].0] == b.entries[i].1)
  {
    match b
    case EmptyBuilder => Success(EmptyStaticValues)
    case EnumBuilder(entries, valuesField, valuesValue) =>
      if !DistinctKeys(entries) then Failure(DuplicateKey)
      else
        var m := ToMap(entries);
        assert entries != [] ==> entries[0].0 in m;
        if valuesValue == None && m == map[] then Success(EmptyStaticValues)
        else Success(EnumStaticFieldValues(m, valuesField, valuesValue))
  }

  /** The empty builder ignores whatever is recorded and always builds the empty values. */
  lemma {:induction false} EmptyBuilderIgnoresRecords(records: seq<(Field, AbstractValue)>, valuesName: nat)
    ensures RecordAll(EmptyBuilder, records, valuesName) == EmptyBuilder
    ensures Build(RecordAll(EmptyBuilder, records, valuesName)) == Success(EmptyStaticValues)
    decreases |records|
  {
    if records != [] {
      EmptyBuilderIgnoresRecords(records[1..], valuesName);
    }
  }

  /** The enum fields recorded under a name other than the values name, in order. */
  function EnumEntries(records: seq<(Field, AbstractValue)>, valuesName: nat): seq<(FieldRef, AbstractValue)>
    decreases |records|
  {
    if records == [] then []
    else
      var f := records[0].0;
      (if f.name != valuesName && f.isEnum then [(f.ref, records[0].1)] else [])
        + EnumEntries(records[1..], valuesName)
  }

  /** After a sequence of records the enum builder holds exactly the enum fields not named
      like the values field, in the order they were recorded. */
  lemma {:induction false} EnumBuilderCollectsEnumFields(
    b: Builder, records: seq<(Field, AbstractValue)>, valuesName: nat)
    requires b.EnumBuilder?
    ensures RecordAll(b, records, valuesName).EnumBuilder?
    ensures RecordAll(b, records, valuesName).entries == b.entries + EnumEntries(records, valuesName)
    decreases |records|
  {
    if records != [] {
      var f := records[0].0;
      var b' := RecordStaticField(b, f, records[0].1, valuesName);
      var head := if f.name != valuesName && f.isEnum then [(f.ref, records[0].1)] else [];
      assert b'.entries == b.entries + head;
      assert EnumEntries(records, valuesName) == head + EnumEntries(records[1..], valuesName);
      EnumBuilderCollectsEnumFields(b', records[1..], valuesName);
      assert RecordAll(b, records, valuesName) == RecordAll(b', records[1..], valuesName);
      assert b.entries + head + EnumEntries(records[1..], valuesName)
          == b.entries + (head + EnumEntries(records[1..], valuesName));
    }
  }

  /** Records that do not carry the values name leave the values value alone. */
  lemma {:induction false} EnumBuilderKeepsValuesValue(
    b: Builder, records: seq<(Field, AbstractValue)>, valuesName: nat)
    requires b.EnumBuilder?
    requires forall i :: 0 <= i < |records| ==> records[i].0.name != valuesName
    ensures RecordAll(b, records, valuesName).EnumBuilder?
    ensures RecordAll(b, records, valuesName).valuesValue == b.valuesValue
    decreases |records|
  {
    if records != [] {
      assert records[0].0.name != valuesName;
      var b' := RecordStaticField(b, records[0].0, records[0].1, valuesName);
      assert forall i :: 0 <= i < |records[1..]| ==> records[1..][i] == records[i + 1];
      EnumBuilderKeepsValuesValue(b', records[1..], valuesName);
    }
  }

  /** The last record carrying the values name determines the values value. */
  lemma {:induction false} EnumBuilderLastValuesRecordWins(
    b: Builder, records: seq<(Field, AbstractValue)>, valuesName: nat, i: nat)
    requires b.EnumBuilder?
    requires i < |records| && records[i].0.name == valuesName
    requires forall j :: i < j < |records| ==> records[j].0.name != valuesName
    ensures RecordAll(b, records, valuesName).EnumBuilder?
    ensures RecordAll(b, records, valuesName).valuesValue == Some(records[i].1)
    decreases |records|
  {
    var b' := RecordStaticField(b, records[0].0, records[0].1, valuesName);
    var rest := records[1..];
    assert forall j :: 0 <= j < |rest| ==> rest[j] == records[j + 1];
    if i == 0 {
      EnumBuilderKeepsValuesValue(b', rest, valuesName);
    } else {
      EnumBuilderLastValuesRecordWins(b', rest, valuesName, i - 1);
    }
  }

  /** `getObjectStateForPossiblyPinnedEnumInstance`: `Success(None)` is the null answer
      for an unused instance; `stateForOrdinal` is the values array's per-ordinal lookup. */
  function GetObjectState(
    v: Values, field: FieldRef, ordinal: int, stateForOrdinal: (ObjectState, int) -> ObjectState)
    : (r: Result<Option<ObjectState>, Error>)
    requires v.EnumStaticFieldValues?
    ensures field in v.enumAbstractValues && v.enumAbstractValues[field].SingleField? ==>
      r == Success(Some(v.enumAbstractValues[field].state))
    ensures field in v.enumAbstractValues && v.enumAbstractValues[field].Unknown? ==>
      r == Success(Some(EmptyState))
    ensures field in v.enumAbstractValues && v.enumAbstractValues[field].OtherValue? ==>
      r == Failure(AssertionFailure)
    ensures (field !in v.enumAbstractValues || v.enumAbstractValues[field].Zero?) ==>
      (v.valuesAbstractValue == None <==> r == Failure(NullValuesValue)) &&
      (v.valuesAbstractValue == Some(Zero) <==> r == Success(None)) &&
      (v.valuesAbstractValue == Some(Unknown) ==> r == Success(Some(EmptyState))) &&
      (v.valuesAbstractValue == Some(OtherValue) ==> r == Failure(AssertionFailure)) &&
      (v.valuesAbstractValue.Some? && v.valuesAbstractValue.value.SingleField? ==>
        var valuesState := v.valuesAbstractValue.value.state;
        r == Success(Some(if valuesState.EnumValues? then stateForOrdinal(valuesState, ordinal) else EmptyState)))
  {
    var fieldValue := if field in v.enumAbstractValues then Some(v.enumAbstractValues[field]) else None;
    if fieldValue.Some? && fieldValue.value.SingleField? then Success(Some(fieldValue.value.state))
    else if fieldValue.Some? && fieldValue.value.Unknown? then Success(Some(EmptyState))
    else if fieldValue.Some? && !fieldValue.value.Zero? then Failure(AssertionFailure)
    else match v.valuesAbstractValue
      case None => Failure(NullValuesValue)
      case Some(Zero) => Success(None)
      case Some(Unknown) => Success(Some(EmptyState))
      case Some(OtherValue) => Failure(AssertionFailure)
      case Some(SingleField(valuesState)) =>
        if valuesState.EnumValues? then Success(Some(stateForOrdinal(valuesState, ordinal)))
        else Success(Some(EmptyState))
  }

  /** The enum field's own value, when it is anything but zero, decides the answer: the
      values array is consulted only for a missing or zero field value, and then the
      field value does not matter. */
  lemma FieldValueTakesPriority(
    v: Values, w: Values, field: FieldRef, ordinal: int, stateForOrdinal: (ObjectState, int) -> ObjectState)
    requires v.EnumStaticFieldValues? && w.EnumStaticFieldValues?
    ensures (field in v.enumAbstractValues && !v.enumAbstractValues[field].Zero? &&
             w.enumAbstractValues == v.enumAbstractValues) ==>
      GetObjectState(v, field, ordinal, stateForOrdinal) == GetObjectState(w, field, ordinal, stateForOrdinal)
    ensures ((field !in v.enumAbstractValues || v.enumAbstractValues[field].Zero?) &&
             (field !in w.enumAbstractValues || w.enumAbstractValues[field].Zero?) &&
             w.valuesAbstractValue == v.valuesAbstractValue) ==>
      GetObjectState(v, field, ordinal, stateForOrdinal) == GetObjectState(w, field, ordinal, stateForOrdinal)
  {
  }
}
