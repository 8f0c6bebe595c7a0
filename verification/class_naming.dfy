/** Per-class naming information read from a mapping file: line-range lookup, line-number
    translation, combining partial mappings and member lookup. */
module ClassNaming {
  import opened Wrappers
  import opened JavaInt

  /** An inclusive line range `from:to`. */
  datatype Range = Range(from: int, to: int)

  predicate Contains(r: Range, line: int) { r.from <= line <= r.to }

  /** Additional mapping information (`# {...}` lines); only the file-name kind is told apart. */
  datatype MappingInfo = MappingInfo(id: nat, fileName: Option<string>)

  /** `minifiedRange` may be null (no line numbers); `originalRange` may be null (identity). */
  datatype MappedRange = MappedRange(
    minifiedRange: Option<Range>,
    signature: string,
    originalRange: Option<Range>,
    renamedName: string,
    sequenceNumber: nat,
    additionalMappingInfo: seq<MappingInfo>)

  predicate HasNoLineRange(r: MappedRange) { r.minifiedRange.None? }

  predicate ContainsLine(r: MappedRange, line: int) {
    r.minifiedRange.Some? && Contains(r.minifiedRange.value, line)
  }

  /** Index of the first element satisfying `p`, if any. */
  function IndexOfFirst(ranges: seq<MappedRange>, p: MappedRange -> bool): (k: Option<nat>)
    ensures k.Some? ==> k.value < |ranges| && p(ranges[k.value])
    ensures k.Some? ==> forall j :: 0 <= j < k.value ==> !p(ranges[j])
    ensures k.None? ==> forall j :: 0 <= j < |ranges| ==> !p(ranges[j])
    decreases |ranges|
  {
    if ranges == [] then None
    else if p(ranges[0]) then Some(0)
    else match IndexOfFirst(ranges[1..], p)
      case None => None
      case Some(k) => Some(k + 1)
  }

  /** What `firstRangeForLine` answers: the first range containing the line; failing that
      the first range without line numbers; failing that null. */
  function FirstRangeForLineSpec(ranges: seq<MappedRange>, line: int): Option<MappedRange> {
    match IndexOfFirst(ranges, r => ContainsLine(r, line))
    case Some(k) => Some(ranges[k])
    case None =>
      match IndexOfFirst(ranges, HasNoLineRange)
      case Some(k) => Some(ranges[k])
      case None => None
  }

  /** The single pass of `firstRangeForLine`. */
  method FirstRangeForLine(ranges: seq<MappedRange>, line: int) returns (r: Option<MappedRange>)
    ensures r == FirstRangeForLineSpec(ranges, line)
  {
    var bestRange: Option<MappedRange> := None;
    var i := 0;
    while i < |ranges|
      invariant 0 <= i <= |ranges|
      invariant forall j :: 0 <= j < i ==> !ContainsLine(ranges[j], line)
      invariant bestRange.None? <==> forall j :: 0 <= j < i ==> !HasNoLineRange(ranges[j])
      invariant bestRange.Some? ==>
        exists k :: 0 <= k < i && bestRange == Some(ranges[k]) && IndexOfFirst(ranges, HasNoLineRange) == Some(k)
    {
      var range := ranges[i];
      if range.minifiedRange.None? {
        if bestRange.None? {
          bestRange := Some(range);
        }
      } else if Contains(range.minifiedRange.value, line) {
        return Some(range);
      }
      i := i + 1;
    }
    return bestRange;
  }

  /** The end of the run of ranges, starting at `i`, that share ranges[i]'s minified range. */
  function RunEnd(ranges: seq<MappedRange>, i: nat): (j: nat)
    requires i < |ranges|
    ensures i < j <= |ranges|
    ensures forall m :: i <= m < j ==> ranges[m].minifiedRange == ranges[i].minifiedRange
    ensures j < |ranges| ==> ranges[j].minifiedRange != ranges[i].minifiedRange
    decreases |ranges| - i
  {
    if i + 1 < |ranges| && ranges[i + 1].minifiedRange == ranges[i].minifiedRange then
      RunEnd(ranges, i + 1)
    else i + 1
  }

  /** What `allRangesForLine` answers: the maximal run of ranges equal in minified range to
      the first containing one; failing that, the first range without line numbers (only if
      `takeFirstWithNoLineRange`); failing that the empty list. */
  function AllRangesForLineSpec(ranges: seq<MappedRange>, line: int, takeFirstWithNoLineRange: bool)
    : seq<MappedRange>
  {
    match IndexOfFirst(ranges, r => ContainsLine(r, line))
    case Some(i) => ranges[i..RunEnd(ranges, i)]
    case None =>
      if !takeFirstWithNoLineRange then []
      else match IndexOfFirst(ranges, HasNoLineRange)
        case Some(k) => [ranges[k]]
        case None => []
  }

  /** The nested loops of `allRangesForLine`. */
  method AllRangesForLine(ranges: seq<MappedRange>, line: int, takeFirstWithNoLineRange: bool)
    returns (r: seq<MappedRange>)
    ensures r == AllRangesForLineSpec(ranges, line, takeFirstWithNoLineRange)
  {
    var noLineRange: Option<MappedRange> := None;
    var i := 0;
    while i < |ranges|
      invariant 0 <= i <= |ranges|
      invariant forall j :: 0 <= j < i ==> !ContainsLine(ranges[j], line)
      invariant !takeFirstWithNoLineRange ==> noLineRange.None?
      invariant takeFirstWithNoLineRange ==>
        (noLineRange.None? <==> forall j :: 0 <= j < i ==> !HasNoLineRange(ranges[j]))
      invariant noLineRange.Some? ==>
        exists k :: 0 <= k < i && noLineRange == Some(ranges[k]) && IndexOfFirst(ranges, HasNoLineRange) == Some(k)
    {
      var rangeI := ranges[i];
      if rangeI.minifiedRange.None? {
        if noLineRange.None? && takeFirstWithNoLineRange {
          noLineRange := Some(rangeI);
        }
      } else if Contains(rangeI.minifiedRange.value, line) {
        var j := i + 1;
        while j < |ranges|
          invariant i < j <= |ranges|
          invariant forall m :: i <= m < j ==> ranges[m].minifiedRange == rangeI.minifiedRange
        {
          if ranges[j].minifiedRange != rangeI.minifiedRange {
            break;
          }
          j := j + 1;
        }
        assert IndexOfFirst(ranges, r => ContainsLine(r, line)) == Some(i);
        assert j == RunEnd(ranges, i) by { RunEndIsFirstChange(ranges, i, j); }
        return ranges[i..j];
      }
      i := i + 1;
    }
    return if noLineRange.None? then [] else [noLineRange.value];
  }

  lemma RunEndIsFirstChange(ranges: seq<MappedRange>, i: nat, j: nat)
    requires i < j <= |ranges|
    requires forall m :: i <= m < j ==> ranges[m].minifiedRange == ranges[i].minifiedRange
    requires j < |ranges| ==> ranges[j].minifiedRange != ranges[i].minifiedRange
    ensures j == RunEnd(ranges, i)
  {
  }

  /** With the fallback enabled, `allRangesForLine` is empty exactly when `firstRangeForLine`
      is null, and otherwise starts with the range `firstRangeForLine` returns. */
  lemma AllRangesStartWithFirstRange(ranges: seq<MappedRange>, line: int)
    ensures AllRangesForLineSpec(ranges, line, true) == [] <==> FirstRangeForLineSpec(ranges, line).None?
    ensures AllRangesForLineSpec(ranges, line, true) != [] ==>
      Some(AllRangesForLineSpec(ranges, line, true)[0]) == FirstRangeForLineSpec(ranges, line)
    ensures forall r :: r in AllRangesForLineSpec(ranges, line, false) ==> ContainsLine(r, line)
  {
    match IndexOfFirst(ranges, r => ContainsLine(r, line))
    case Some(i) =>
      var run := ranges[i..RunEnd(ranges, i)];
      assert run[0] == ranges[i];
      forall r | r in AllRangesForLineSpec(ranges, line, false) ensures ContainsLine(r, line) {
        var m :| 0 <= m < |run| && run[m] == r;
        assert run[m] == ranges[i + m];
      }
    case None =>
  }

  /** `getOriginalLineNumber`; the minified range, when present, contains the line. The
      shift is Java `int` arithmetic, so it wraps around when the sum leaves the `int` range. */
  function GetOriginalLineNumber(r: MappedRange, line: int): (n: int)
    requires r.minifiedRange.Some? ==> Contains(r.minifiedRange.value, line)
    ensures r.minifiedRange.None? || r.originalRange.None? ==> n == line
    ensures (r.minifiedRange.Some? && r.originalRange.Some? &&
             r.originalRange.value.from == r.originalRange.value.to) ==> n == r.originalRange.value.to
    ensures (r.minifiedRange.Some? && r.originalRange.Some? &&
             r.originalRange.value.from != r.originalRange.value.to) ==>
      IsInt32(n) && (n - (r.originalRange.value.from + line - r.minifiedRange.value.from)) % TWO_32 == 0
  {
    if r.minifiedRange.None? then line
    else if r.originalRange.None? then line
    else if r.originalRange.value.to == r.originalRange.value.from then r.originalRange.value.to
    else Wrap32(r.originalRange.value.from + line - r.minifiedRange.value.from)
  }

  /** For a multi-line original range of the same length as the minified range, the
      translation is a shift: it maps the minified range onto the original range one to
      one, keeping the order of lines. */
  lemma LineTranslationIsShift(r: MappedRange, line1: int, line2: int)
    requires r.minifiedRange.Some? && r.originalRange.Some?
    requires r.originalRange.value.from != r.originalRange.value.to
    requires r.originalRange.value.to - r.originalRange.value.from ==
             r.minifiedRange.value.to - r.minifiedRange.value.from
    requires IsInt32(r.originalRange.value.from) && IsInt32(r.originalRange.value.to)
    requires Contains(r.minifiedRange.value, line1) && Contains(r.minifiedRange.value, line2)
    ensures Contains(r.originalRange.value, GetOriginalLineNumber(r, line1))
    ensures GetOriginalLineNumber(r, line2) - GetOriginalLineNumber(r, line1) == line2 - line1
    ensures GetOriginalLineNumber(r, r.minifiedRange.value.from) == r.originalRange.value.from
  {
  }

  /** When the original range is shorter than the minified one, the shift can leave the
      `int` range and wraps around, as Java's `int` addition does. */
  lemma ShiftWrapsAround(r: MappedRange)
    requires r.minifiedRange == Some(Range(0, 100)) && r.originalRange == Some(Range(2147483640, 2147483647))
    ensures GetOriginalLineNumber(r, 50) == -2147483606
  {
  }

  /** `MappedRange.equals`: the sequence number and the additional info do not count. */
  predicate SameMapping(a: MappedRange, b: MappedRange) {
    a.minifiedRange == b.minifiedRange && a.originalRange == b.originalRange &&
    a.signature == b.signature && a.renamedName == b.renamedName
  }

  /** Java's `Objects.hashCode` of a range that may be null. */
  function OptHash(r: Option<Range>, rangeHash: Range -> int): int {
    if r.None? then 0 else rangeHash(r.value)
  }

  /** `MappedRange.hashCode`, over the hash functions of ranges and strings. */
  function Hash(r: MappedRange, rangeHash: Range -> int, stringHash: string -> int): (h: int)
    ensures IsInt32(h)
  {
    var h1 := OptHash(r.minifiedRange, rangeHash);
    var h2 := Wrap32(31 * h1 + OptHash(r.originalRange, rangeHash));
    var h3 := Wrap32(31 * h2 + stringHash(r.signature));
    Wrap32(31 * h3 + stringHash(r.renamedName))
  }

  /** Equality is the datatype equality with the sequence number and the info erased, and
      equal ranges hash alike. */
  lemma SameMappingIgnoresSequenceNumber(
    a: MappedRange, b: MappedRange, rangeHash: Range -> int, stringHash: string -> int)
    ensures SameMapping(a, b) <==>
      a.(sequenceNumber := 0, additionalMappingInfo := []) == b.(sequenceNumber := 0, additionalMappingInfo := [])
    ensures SameMapping(a, b) ==> Hash(a, rangeHash, stringHash) == Hash(b, rangeHash, stringHash)
    ensures SameMapping(a, a.(sequenceNumber := a.sequenceNumber + 1))
  {
  }

  /** The shared loop of both `addMappingInformation`s: the new info is appended only if
      every existing info allows it; otherwise the first one that does not is reported
      and the list is left alone. */
  method AddMappingInformation(
    infos: seq<MappingInfo>, info: MappingInfo, allowOther: (MappingInfo, MappingInfo) -> bool)
    returns (result: seq<MappingInfo>, prohibitedBy: Option<MappingInfo>)
    ensures (forall k :: 0 <= k < |infos| ==> allowOther(infos[k], info)) ==>
      result == infos + [info] && prohibitedBy.None?
    ensures (exists k :: 0 <= k < |infos| && !allowOther(infos[k], info)) ==>
      result == infos && prohibitedBy.Some? &&
      exists k :: 0 <= k < |infos| && prohibitedBy.value == infos[k] && !allowOther(infos[k], info) &&
        forall j :: 0 <= j < k ==> allowOther(infos[j], info)
  {
    var i := 0;
    while i < |infos|
      invariant 0 <= i <= |infos|
      invariant forall j :: 0 <= j < i ==> allowOther(infos[j], info)
    {
      if !allowOther(infos[i], info) {
        return infos, Some(infos[i]);
      }
      i := i + 1;
    }
    return infos + [info], None;
  }

  /** The builder's variant also reports (original class name, file name) to the source
      file consumer when a file-name info is added. */
  method BuilderAddMappingInformation(
    originalName: string, infos: seq<MappingInfo>, info: MappingInfo,
    allowOther: (MappingInfo, MappingInfo) -> bool)
    returns (result: seq<MappingInfo>, prohibitedBy: Option<MappingInfo>, sourceFile: Option<(string, string)>)
    ensures (forall k :: 0 <= k < |infos| ==> allowOther(infos[k], info)) ==>
      result == infos + [info] && prohibitedBy.None? &&
      sourceFile == (if info.fileName.Some? then Some((originalName, info.fileName.value)) else None)
    ensures (exists k :: 0 <= k < |infos| && !allowOther(infos[k], info)) ==>
      result == infos && prohibitedBy.Some? && sourceFile.None?
  {
    result, prohibitedBy := AddMappingInformation(infos, info, allowOther);
    sourceFile := None;
    if prohibitedBy.None? && info.fileName.Some? {
      sourceFile := Some((originalName, info.fileName.value));
    }
  }

  /** A member naming: the name in its original signature, and its renamed name. */
  datatype MemberNaming = MemberNaming(originalName: string, renamedName: string)

  /** The class naming; the member maps are kept as their values in iteration order. */
  datatype ClassNamingForNameMapper = ClassNamingForNameMapper(
    originalName: string,
    renamedName: string,
    methodMembers: seq<MemberNaming>,
    fieldMembers: seq<MemberNaming>)

  predicate IsEmpty(c: ClassNamingForNameMapper) { c.methodMembers == [] && c.fieldMembers == [] }

  const PARTIAL_MERGE_MESSAGE: string := "R8 Retrace do not support merging of partial class mappings."

  function MapsBackMessage(a: ClassNamingForNameMapper, b: ClassNamingForNameMapper): string {
    "Cannot combine mapping for " + a.renamedName + " because it maps back to both "
      + a.originalName + " and " + b.originalName + "."
  }

  /** The second error message as the source builds it. */
  function MapsForwardMessageAsWritten(a: ClassNamingForNameMapper, b: ClassNamingForNameMapper): string {
    "Cannot combine mapping for " + a.originalName + " because it maps forward to both "
      + a.originalName + " and " + b.originalName + "."
  }

  /** The second error message naming the two renamed names that clash. */
  function MapsForwardMessage(a: ClassNamingForNameMapper, b: ClassNamingForNameMapper): string {
    "Cannot combine mapping for " + a.originalName + " because it maps forward to both "
      + a.renamedName + " and " + b.renamedName + "."
  }

  function CombineWith(
    a: ClassNamingForNameMapper, b: ClassNamingForNameMapper, forwardMessage: string)
    : Result<ClassNamingForNameMapper, string>
  {
    if a.originalName != b.originalName then Failure(MapsBackMessage(a, b))
    else if a.renamedName != b.renamedName then Failure(forwardMessage)
    else if IsEmpty(a) then Success(b)
    else if IsEmpty(b) then Success(a)
    else Failure(PARTIAL_MERGE_MESSAGE)
  }

  /** `combine` as written: the same outcomes as the corrected `combine`, with the
      maps-forward message built from the original names. */
  function CombineAsWritten(a: ClassNamingForNameMapper, b: ClassNamingForNameMapper)
    : (r: Result<ClassNamingForNameMapper, string>)
    ensures r.Success? <==>
      a.originalName == b.originalName && a.renamedName == b.renamedName && (IsEmpty(a) || IsEmpty(b))
    ensures r.Success? ==> r.value == (if IsEmpty(a) then b else a)
    ensures a.originalName != b.originalName ==> r == Failure(MapsBackMessage(a, b))
    ensures a.originalName == b.originalName && a.renamedName != b.renamedName ==>
      r == Failure(MapsForwardMessageAsWritten(a, b))
  {
    CombineWith(a, b, MapsForwardMessageAsWritten(a, b))
  }

  /** `combine` with the forward-clash message naming the renamed names. */
  function Combine(a: ClassNamingForNameMapper, b: ClassNamingForNameMapper)
    : (r: Result<ClassNamingForNameMapper, string>)
    ensures r.Success? <==>
      a.originalName == b.originalName && a.renamedName == b.renamedName && (IsEmpty(a) || IsEmpty(b))
    ensures r.Success? ==> r.value == (if IsEmpty(a) then b else a)
    ensures a.originalName != b.originalName ==> r == Failure(MapsBackMessage(a, b))
    ensures a.originalName == b.originalName && a.renamedName != b.renamedName ==>
      r == Failure(MapsForwardMessage(a, b))
  {
    CombineWith(a, b, MapsForwardMessage(a, b))
  }

  /** The source's `combine` and the corrected one differ only in the maps-forward
      message: every other outcome, success or failure, is the same. */
  lemma CombineDiffersOnlyInForwardMessage(a: ClassNamingForNameMapper, b: ClassNamingForNameMapper)
    ensures !(a.originalName == b.originalName && a.renamedName != b.renamedName) ==>
      CombineAsWritten(a, b) == Combine(a, b)
    ensures a.originalName == b.originalName && a.renamedName != b.renamedName ==>
      CombineAsWritten(a, b).Failure? && Combine(a, b).Failure?
  {
  }

  /** A successful combine loses no member: the result has the members of both sides. */
  lemma CombineKeepsAllMembers(a: ClassNamingForNameMapper, b: ClassNamingForNameMapper)
    requires Combine(a, b).Success?
    ensures Combine(a, b).value.methodMembers == a.methodMembers + b.methodMembers
    ensures Combine(a, b).value.fieldMembers == a.fieldMembers + b.fieldMembers
    ensures Combine(a, b).value.originalName == a.originalName
    ensures Combine(a, b).value.renamedName == b.renamedName
  {
    if IsEmpty(a) {
      assert a.methodMembers + b.methodMembers == b.methodMembers;
      assert a.fieldMembers + b.fieldMembers == b.fieldMembers;
    } else {
      assert a.methodMembers + b.methodMembers == a.methodMembers;
      assert a.fieldMembers + b.fieldMembers == a.fieldMembers;
    }
  }

  /** As written, the forward-clash message does not depend on the renamed names at all:
      it names the shared original class twice, so `A -> a` against `A -> b` reads
      "... maps forward to both A and A.", the same as `A -> x` against `A -> y`. */
  lemma ForwardMessageAsWrittenIgnoresRenamedNames(
    a: ClassNamingForNameMapper, b: ClassNamingForNameMapper, x: string, y: string)
    ensures MapsForwardMessageAsWritten(a, b) ==
      MapsForwardMessageAsWritten(a.(renamedName := x), b.(renamedName := y))
    ensures var a0 := ClassNamingForNameMapper("A", "a", [], []);
            var b0 := ClassNamingForNameMapper("A", "b", [], []);
            CombineAsWritten(a0, b0) == Failure(MapsForwardMessageAsWritten(a0, a0))
  {
  }

  /** The corrected message carries both clashing renamed names, at known positions. */
  lemma ForwardMessageNamesBothRenamedNames(a: ClassNamingForNameMapper, b: ClassNamingForNameMapper)
    ensures var m := MapsForwardMessage(a, b);
            var p := |"Cannot combine mapping for " + a.originalName + " because it maps forward to both "|;
            var q := p + |a.renamedName + " and "|;
            q + |b.renamedName| <= |m| &&
            m[p..p + |a.renamedName|] == a.renamedName && m[q..q + |b.renamedName|] == b.renamedName
  {
    var pre := "Cannot combine mapping for " + a.originalName + " because it maps forward to both ";
    var mid := pre + a.renamedName + " and ";
    var m := MapsForwardMessage(a, b);
    assert m == pre + a.renamedName + (" and " + b.renamedName + ".");
    assert m == mid + b.renamedName + ".";
    assert |mid| == |pre| + |a.renamedName + " and "|;
  }

  /** For the clash in the example above, the corrected messages tell the renamed names apart. */
  lemma ForwardMessageDistinguishesClashes()
    ensures MapsForwardMessage(ClassNamingForNameMapper("A", "a", [], []), ClassNamingForNameMapper("A", "b", [], []))
         != MapsForwardMessage(ClassNamingForNameMapper("A", "x", [], []), ClassNamingForNameMapper("A", "y", [], []))
  {
    var a, b := ClassNamingForNameMapper("A", "a", [], []), ClassNamingForNameMapper("A", "b", [], []);
    var x, y := ClassNamingForNameMapper("A", "x", [], []), ClassNamingForNameMapper("A", "y", [], []);
    ForwardMessageNamesBothRenamedNames(a, b);
    ForwardMessageNamesBothRenamedNames(x, y);
    var p := |"Cannot combine mapping for " + "A" + " because it maps forward to both "|;
    assert MapsForwardMessage(a, b)[p..p + 1] == "a";
    assert MapsForwardMessage(x, y)[p..p + 1] == "x";
  }

  /** The members of `s` whose original name is `name`, in order. */
  function Matching(s: seq<MemberNaming>, name: string): (r: seq<MemberNaming>)
    ensures forall m :: m in r <==> m in s && m.originalName == name
    ensures |r| <= |s|
    decreases |s|
  {
    if s == [] then []
    else (if s[0].originalName == name then [s[0]] else []) + Matching(s[1..], name)
  }

  lemma {:induction false} MatchingAppend(s: seq<MemberNaming>, t: seq<MemberNaming>, name: string)
    ensures Matching(s + t, name) == Matching(s, name) + Matching(t, name)
    decreases |s|
  {
    if s != [] {
      assert (s + t)[1..] == s[1..] + t;
      MatchingAppend(s[1..], t, name);
    } else {
      assert s + t == t;
    }
  }

  /** One of the two loops of `lookupByOriginalName`: appends the matching namings of `s`. */
  method AppendMatching(acc: seq<MemberNaming>, s: seq<MemberNaming>, name: string)
    returns (result: seq<MemberNaming>)
    ensures result == acc + Matching(s, name)
  {
    result := acc;
    var i := 0;
    while i < |s|
      invariant 0 <= i <= |s|
      invariant result == acc + Matching(s[..i], name)
    {
      assert s[..i + 1] == s[..i] + [s[i]];
      MatchingAppend(s[..i], [s[i]], name);
      if s[i].originalName == name {
        result := result + [s[i]];
      }
      i := i + 1;
    }
    assert s[..i] == s;
  }

  /** `lookupByOriginalName`: the matching method namings, then the matching field namings. */
  method LookupByOriginalName(c: ClassNamingForNameMapper, name: string) returns (result: seq<MemberNaming>)
    ensures result == Matching(c.methodMembers, name) + Matching(c.fieldMembers, name)
    ensures forall m :: m in result <==> (m in c.methodMembers || m in c.fieldMembers) && m.originalName == name
  {
    result := AppendMatching([], c.methodMembers, name);
    result := AppendMatching(result, c.fieldMembers, name);
  }
}
