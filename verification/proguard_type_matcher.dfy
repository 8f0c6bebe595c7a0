/** Type matchers of ProGuard keep rules: the fixed matchers `***`, `...`, `**`, `*`, `%`,
    exact types, and patterns with wildcards matched against a type's source name. */
module ProguardTypeMatcher {
  import opened Wrappers

  datatype ClassOrType = CLASS | TYPE

  /** A wildcard of a pattern: a `Pattern` (`*`, `**`, `***`, `?`) capturing text, or a
      back reference `<n>` naming the wildcard whose captured text it must repeat. */
  datatype Wildcard = Pattern | BackReference(target: nat)

  /** The captured text of every wildcard of a matcher, null when nothing is captured. */
  type Captures = seq<Option<string>>

  datatype WildcardKind = PatternKind | BackReferenceKind | Malformed

  function KindOf(w: Wildcard): WildcardKind {
    if w.Pattern? then PatternKind else BackReferenceKind
  }

  function KindsOf(ws: seq<Wildcard>): seq<WildcardKind>
    decreases |ws|
  {
    if ws == [] then [] else [KindOf(ws[0])] + KindsOf(ws[1..])
  }

  /** Index of the first occurrence of `c` in `s` at or after `from`. */
  function IndexOf(s: string, c: char, from: nat): (r: Option<nat>)
    ensures r.Some? ==> from <= r.value < |s| && s[r.value] == c
    ensures r.Some? ==> forall k :: from <= k < r.value ==> s[k] != c
    ensures r.None? ==> forall k :: from <= k < |s| ==> s[k] != c
    decreases |s| - from
  {
    if from >= |s| then None
    else if s[from] == c then Some(from)
    else IndexOf(s, c, from + 1)
  }

  /** Just past the run of one, two or three stars starting at `i`. */
  function StarEnd(p: string, i: nat): (next: nat)
    requires i < |p| && p[i] == '*'
    ensures i < next <= i + 3 && next <= |p|
  {
    var includeSeparators := |p| > i + 1 && p[i + 1] == '*';
    var includeAll := includeSeparators && |p| > i + 2 && p[i + 2] == '*';
    if includeAll then i + 3 else if includeSeparators then i + 2 else i + 1
  }

  /** The wildcards the scan of `p` from `i` meets, in order. A `<` with no closing `>`
      yields `Malformed`, which no wildcard list matches. */
  function WildcardKinds(p: string, i: nat): seq<WildcardKind>
    decreases |p| - i
  {
    if i >= |p| then []
    else if p[i] == '*' then [PatternKind] + WildcardKinds(p, StarEnd(p, i))
    else if p[i] == '?' then [PatternKind] + WildcardKinds(p, i + 1)
    else if p[i] == '<' then
      match IndexOf(p, '>', i)
      case None => [Malformed]
      case Some(close) => [BackReferenceKind] + WildcardKinds(p, close + 1)
    else WildcardKinds(p, i + 1)
  }

  /** The wildcard list from `wi` on lines up with the wildcards of the pattern from `i`. */
  predicate AlignedAt(p: string, i: nat, ws: seq<Wildcard>, wi: nat) {
    wi <= |ws| && KindsOf(ws[wi..]) == WildcardKinds(p, i)
  }

  /** Every back reference names an earlier pattern wildcard of the list, and there is one capture
      slot per wildcard. */
  predicate ValidCaptures(ws: seq<Wildcard>, caps: Captures) {
    |caps| == |ws| &&
    forall k :: 0 <= k < |ws| && ws[k].BackReference? ==> ws[k].target < k && ws[ws[k].target].Pattern?
  }

  lemma AlignedStep(p: string, i: nat, ws: seq<Wildcard>, wi: nat)
    requires AlignedAt(p, i, ws, wi) && i < |p|
    ensures p[i] == '*' ==> wi < |ws| && ws[wi].Pattern? && AlignedAt(p, StarEnd(p, i), ws, wi + 1)
    ensures p[i] == '?' ==> wi < |ws| && ws[wi].Pattern? && AlignedAt(p, i + 1, ws, wi + 1)
    ensures p[i] == '<' ==>
      (wi < |ws| && ws[wi].BackReference? && IndexOf(p, '>', i).Some? &&
       AlignedAt(p, IndexOf(p, '>', i).value + 1, ws, wi + 1))
    ensures p[i] != '*' && p[i] != '?' && p[i] != '<' ==> AlignedAt(p, i + 1, ws, wi)
  {
    if p[i] == '*' || p[i] == '?' || p[i] == '<' {
      var rest := ws[wi..];
      var ks := WildcardKinds(p, i);
      assert ks != [];
      assert rest != [];
      assert KindsOf(rest) == [KindOf(rest[0])] + KindsOf(rest[1..]);
      assert rest[0] == ws[wi];
      assert rest[1..] == ws[wi + 1..];
      assert ks[0] == KindOf(ws[wi]) && ks[1..] == KindsOf(ws[wi + 1..]);
    }
  }

  predicate IsArrayType(s: string) {
    |s| >= 2 && s[|s| - 1] == ']' && s[|s| - 2] == '['
  }

  predicate ContainsSeparatorsStartingAt(s: string, from: nat)
    requires from <= |s|
  {
    '.' in s[from..]
  }

  /** `matchClassOrTypeNameImpl` from pattern index `i`, name index `ni` and wildcard index
      `wi`: whether the rest matches, and the captures as the search leaves them. */
  function MatchFrom(
    p: string, i: nat, name: string, ni: nat, ws: seq<Wildcard>, wi: nat, kind: ClassOrType,
    caps: Captures): (r: (bool, Captures))
    requires i <= |p| && ni <= |name|
    requires AlignedAt(p, i, ws, wi) && ValidCaptures(ws, caps)
    ensures ValidCaptures(ws, r.1)
    decreases |p| - i, 1, 0
  {
    if i == |p| then (ni == |name|, caps)
    else
      AlignedStep(p, i, ws, wi);
      var c := p[i];
      if c == '*' then
        var next := StarEnd(p, i);
        var includeSeparators := next >= i + 2;
        var includeAll := next == i + 3;
        if next == |p| then
          var caps' := caps[wi := Some(name[ni..])];
          if includeAll then (true, caps')
          else if includeSeparators then (kind == CLASS || !IsArrayType(name), caps')
          else (!ContainsSeparatorsStartingAt(name, ni) && (kind == CLASS || !IsArrayType(name)), caps')
        else StarLoop(p, i, next, includeSeparators, name, ni, ni, ws, wi, kind, caps)
      else if c == '?' then
        if ni == |name| || name[ni] == '.' then (false, caps)
        else MatchFrom(p, i + 1, name, ni + 1, ws, wi + 1, kind, caps[wi := Some(name[ni..ni + 1])])
      else if c == '<' then
        var captured := caps[ws[wi].target];
        if captured.None? || |name| < ni + |captured.value| || captured.value != name[ni..ni + |captured.value|]
        then (false, caps)
        else MatchFrom(p, IndexOf(p, '>', i).value + 1, name, ni + |captured.value|, ws, wi + 1, kind, caps)
      else if ni == |name| || c != name[ni] then (false, caps)
      else MatchFrom(p, i + 1, name, ni + 1, ws, wi, kind, caps)
  }

  /** The loop over the split points `nni` of a star run that is not at the end of the
      pattern, then the case where the run eats the rest of the name. */
  function StarLoop(
    p: string, i: nat, next: nat, includeSeparators: bool, name: string, ni: nat, nni: nat,
    ws: seq<Wildcard>, wi: nat, kind: ClassOrType, caps: Captures): (r: (bool, Captures))
    requires i < next < |p| && ni <= nni <= |name|
    requires wi < |ws| && AlignedAt(p, next, ws, wi + 1) && ValidCaptures(ws, caps)
    ensures ValidCaptures(ws, r.1)
    decreases |p| - i, 0, |name| - nni
  {
    if nni < |name| then
      var caps1 := caps[wi := Some(name[ni..nni])];
      if !includeSeparators && name[nni] == '.' then MatchFrom(p, next, name, nni, ws, wi + 1, kind, caps1)
      else if kind == TYPE && name[nni] == '[' then MatchFrom(p, next, name, nni, ws, wi + 1, kind, caps1)
      else
        var attempt := MatchFrom(p, next, name, nni, ws, wi + 1, kind, caps1);
        if attempt.0 then attempt
        else StarLoop(p, i, next, includeSeparators, name, ni, nni + 1, ws, wi, kind, attempt.1)
    else MatchFrom(p, next, name, |name|, ws, wi + 1, kind, caps[wi := Some(name[ni..])])
  }

  /** A name character at which a star run must stop growing: a `.` for a single `*`, a
      `[` when matching types. */
  predicate IsStop(c: char, includeSeparators: bool, kind: ClassOrType) {
    (!includeSeparators && c == '.') || (kind == TYPE && c == '[')
  }

  /** The first stop character at or after `nni`, or the end of the name. */
  function StopIndex(name: string, nni: nat, includeSeparators: bool, kind: ClassOrType): (k: nat)
    requires nni <= |name|
    ensures nni <= k <= |name|
    ensures k < |name| ==> IsStop(name[k], includeSeparators, kind)
    ensures forall j :: nni <= j < k ==> !IsStop(name[j], includeSeparators, kind)
    decreases |name| - nni
  {
    if nni == |name| then |name|
    else if IsStop(name[nni], includeSeparators, kind) then nni
    else StopIndex(name, nni + 1, includeSeparators, kind)
  }

  /** The star loop succeeds exactly when some split point from `nni` up to the first stop
      character (or the end of the name) lets the rest of the pattern match, with the star
      capturing the text before the split. Failed attempts leave captures behind, but they
      never change whether a later attempt succeeds. */
  lemma {:induction false} StarLoopTriesSplitPoints(
    p: string, i: nat, next: nat, includeSeparators: bool, name: string, ni: nat, nni: nat,
    ws: seq<Wildcard>, wi: nat, kind: ClassOrType, caps: Captures)
    requires i < next < |p| && ni <= nni <= |name|
    requires wi < |ws| && AlignedAt(p, next, ws, wi + 1) && ValidCaptures(ws, caps)
    ensures StarLoop(p, i, next, includeSeparators, name, ni, nni, ws, wi, kind, caps).0 <==>
      exists k :: nni <= k <= StopIndex(name, nni, includeSeparators, kind) &&
        MatchFrom(p, next, name, k, ws, wi + 1, kind, caps[wi := Some(name[ni..k])]).0
    decreases |name| - nni
  {
    var stop := StopIndex(name, nni, includeSeparators, kind);
    if nni == |name| {
      assert name[ni..|name|] == name[ni..];
    } else if !IsStop(name[nni], includeSeparators, kind) {
      var caps1 := caps[wi := Some(name[ni..nni])];
      var attempt := MatchFrom(p, next, name, nni, ws, wi + 1, kind, caps1);
      if !attempt.0 {
        StarLoopTriesSplitPoints(p, i, next, includeSeparators, name, ni, nni + 1, ws, wi, kind, attempt.1);
        MatchFromKeepsEarlierCaptures(p, next, name, nni, ws, wi + 1, kind, caps1);
        forall k | nni + 1 <= k <= stop
          ensures MatchFrom(p, next, name, k, ws, wi + 1, kind, attempt.1[wi := Some(name[ni..k])]).0 ==
                  MatchFrom(p, next, name, k, ws, wi + 1, kind, caps[wi := Some(name[ni..k])]).0
        {
          var x := Some(name[ni..k]);
          assert PatternsAgreeBelow(ws, attempt.1[wi := x], caps[wi := x], wi + 1) by {
            forall j | 0 <= j < wi + 1 && ws[j].Pattern?
              ensures attempt.1[wi := x][j] == caps[wi := x][j]
            {
              if j < wi {
                assert attempt.1[j] == caps1[j];
              }
            }
          }
          MatchFromIgnoresLaterCaptures(p, next, name, k, ws, wi + 1, kind, attempt.1[wi := x], caps[wi := x]);
        }
      }
    }
  }

  /** A star run that does not end the pattern matches exactly when some split point, from
      the current position up to the first stop character or the end of the name, lets the
      rest of the pattern match with the run capturing the text before it. */
  lemma InnerStars(
    p: string, i: nat, name: string, ni: nat, ws: seq<Wildcard>, wi: nat, kind: ClassOrType, caps: Captures)
    requires i < |p| && p[i] == '*' && StarEnd(p, i) < |p| && ni <= |name|
    requires AlignedAt(p, i, ws, wi) && ValidCaptures(ws, caps)
    ensures wi < |ws| && AlignedAt(p, StarEnd(p, i), ws, wi + 1)
    ensures MatchFrom(p, i, name, ni, ws, wi, kind, caps).0 <==>
      exists k :: ni <= k <= StopIndex(name, ni, StarEnd(p, i) >= i + 2, kind) &&
        MatchFrom(p, StarEnd(p, i), name, k, ws, wi + 1, kind, caps[wi := Some(name[ni..k])]).0
  {
    AlignedStep(p, i, ws, wi);
    StarLoopTriesSplitPoints(p, i, StarEnd(p, i), StarEnd(p, i) >= i + 2, name, ni, ni, ws, wi, kind, caps);
  }

  predicate NoWildcards(p: string) {
    forall k :: 0 <= k < |p| ==> p[k] != '*' && p[k] != '?' && p[k] != '<'
  }

  /** Without wildcards, pattern characters must match the name one for one, and the
      whole name must be consumed. */
  lemma {:induction false} LiteralPatternMatchesExactly(
    p: string, i: nat, name: string, ni: nat, kind: ClassOrType, caps: Captures)
    requires i <= |p| && ni <= |name| && NoWildcards(p) && caps == []
    requires AlignedAt(p, i, [], 0)
    ensures MatchFrom(p, i, name, ni, [], 0, kind, caps).0 <==> p[i..] == name[ni..]
    decreases |p| - i
  {
    if i < |p| {
      AlignedStep(p, i, [], 0);
      if ni < |name| && p[i] == name[ni] {
        LiteralPatternMatchesExactly(p, i + 1, name, ni + 1, kind, caps);
        assert p[i..] == [p[i]] + p[i + 1..];
        assert name[ni..] == [name[ni]] + name[ni + 1..];
      } else if ni < |name| {
        assert p[i..][0] != name[ni..][0];
      }
    }
  }

  /** A pattern with no wildcard characters is aligned with the empty wildcard list. */
  lemma {:induction false} LiteralPatternIsAligned(p: string, i: nat)
    requires NoWildcards(p)
    ensures WildcardKinds(p, i) == []
    decreases |p| - i
  {
    if i < |p| {
      LiteralPatternIsAligned(p, i + 1);
    }
  }

  /** A star run at the end of the pattern captures the rest of the name: `***` matches
      anything, `**` anything but an array type when matching types, and `*` a rest with
      no `.` under the same array restriction. */
  lemma TrailingStars(
    p: string, i: nat, name: string, ni: nat, ws: seq<Wildcard>, wi: nat, kind: ClassOrType, caps: Captures)
    requires i < |p| && p[i] == '*' && StarEnd(p, i) == |p| && ni <= |name|
    requires AlignedAt(p, i, ws, wi) && ValidCaptures(ws, caps)
    ensures wi < |ws| && MatchFrom(p, i, name, ni, ws, wi, kind, caps).1 == caps[wi := Some(name[ni..])]
    ensures |p| == i + 3 ==> MatchFrom(p, i, name, ni, ws, wi, kind, caps).0
    ensures |p| == i + 2 ==>
      (MatchFrom(p, i, name, ni, ws, wi, kind, caps).0 <==> kind == CLASS || !IsArrayType(name))
    ensures |p| == i + 1 ==>
      (MatchFrom(p, i, name, ni, ws, wi, kind, caps).0 <==>
         (forall k :: ni <= k < |name| ==> name[k] != '.') && (kind == CLASS || !IsArrayType(name)))
  {
    AlignedStep(p, i, ws, wi);
    if |p| == i + 1 {
      assert ContainsSeparatorsStartingAt(name, ni) <==> exists k :: ni <= k < |name| && name[k] == '.' by {
        forall k | ni <= k < |name| ensures name[k] == name[ni..][k - ni] { }
      }
    }
  }

  /** `?` fails at the end of the name and on a `.`; otherwise it captures exactly one
      character and the match goes on one character further. */
  lemma QuestionMarkMatchesOneCharacter(
    p: string, i: nat, name: string, ni: nat, ws: seq<Wildcard>, wi: nat, kind: ClassOrType, caps: Captures)
    requires i < |p| && p[i] == '?' && ni <= |name|
    requires AlignedAt(p, i, ws, wi) && ValidCaptures(ws, caps)
    ensures ni == |name| || name[ni] == '.' ==> !MatchFrom(p, i, name, ni, ws, wi, kind, caps).0
    ensures ni < |name| && name[ni] != '.' ==>
      wi < |ws| && AlignedAt(p, i + 1, ws, wi + 1) &&
      MatchFrom(p, i, name, ni, ws, wi, kind, caps) ==
        MatchFrom(p, i + 1, name, ni + 1, ws, wi + 1, kind, caps[wi := Some([name[ni]])])
  {
    AlignedStep(p, i, ws, wi);
    if ni < |name| {
      assert name[ni..ni + 1] == [name[ni]];
    }
  }

  /** A back reference matches exactly the text its wildcard captured: it fails when nothing
      was captured or the name does not continue with the capture, and otherwise the match
      goes on after the closing `>` and the repeated text. */
  lemma BackReferenceRepeatsCapture(
    p: string, i: nat, name: string, ni: nat, ws: seq<Wildcard>, wi: nat, kind: ClassOrType, caps: Captures)
    requires i < |p| && p[i] == '<' && ni <= |name|
    requires AlignedAt(p, i, ws, wi) && ValidCaptures(ws, caps)
    ensures wi < |ws| && ws[wi].BackReference? && IndexOf(p, '>', i).Some?
    ensures caps[ws[wi].target].None? ==> !MatchFrom(p, i, name, ni, ws, wi, kind, caps).0
    ensures MatchFrom(p, i, name, ni, ws, wi, kind, caps).0 ==>
      var c := caps[ws[wi].target];
      c.Some? && ni + |c.value| <= |name| && name[ni..ni + |c.value|] == c.value &&
      AlignedAt(p, IndexOf(p, '>', i).value + 1, ws, wi + 1) &&
      MatchFrom(p, IndexOf(p, '>', i).value + 1, name, ni + |c.value|, ws, wi + 1, kind, caps).0
    ensures var c := caps[ws[wi].target];
      c.Some? && !(ni + |c.value| <= |name| && name[ni..ni + |c.value|] == c.value) ==>
        !MatchFrom(p, i, name, ni, ws, wi, kind, caps).0
    ensures var c := caps[ws[wi].target];
      c.Some? && ni + |c.value| <= |name| && name[ni..ni + |c.value|] == c.value ==>
        AlignedAt(p, IndexOf(p, '>', i).value + 1, ws, wi + 1) &&
        MatchFrom(p, i, name, ni, ws, wi, kind, caps) ==
          MatchFrom(p, IndexOf(p, '>', i).value + 1, name, ni + |c.value|, ws, wi + 1, kind, caps)
  {
    AlignedStep(p, i, ws, wi);
  }

  /** What a type looks like to a matcher: its source name and its sort. */
  datatype TypeSort = PrimitiveSort | VoidSort | ClassSort | ArraySort
  datatype DexType = DexType(sourceName: string, sort: TypeSort)

  datatype Matcher =
    | MatchAllTypes
    | MatchAnyArgSequence
    | MatchClassTypes(pattern: string)
    | MatchBasicTypes
    | MatchSpecificType(dexType: DexType)
    | MatchTypePattern(pattern: string, wildcards: seq<Wildcard>, kind: ClassOrType)

  /** A parsed identifier pattern together with its wildcards. */
  datatype IdentifierPattern = IdentifierPattern(pattern: Option<string>, wildcards: seq<Wildcard>)

  /** `create`; `javaTypeToDescriptor` followed by `createType` is taken to give the type
      whose source name is the pattern, of the sort `sortOf` assigns it. */
  function Create(ip: Option<IdentifierPattern>, kind: ClassOrType, sortOf: string -> TypeSort)
    : (r: Option<Matcher>)
    ensures (ip.None? || ip.value.pattern.None?) <==> r.None?
    ensures r == Some(MatchAllTypes) <==> ip.Some? && ip.value.pattern == Some("***")
    ensures r == Some(MatchAnyArgSequence) <==> ip.Some? && ip.value.pattern == Some("...")
    ensures r == Some(MatchBasicTypes) <==> ip.Some? && ip.value.pattern == Some("%")
    ensures r.Some? && r.value.MatchClassTypes? <==>
      ip.Some? && (ip.value.pattern == Some("**") || ip.value.pattern == Some("*"))
    ensures r.Some? && r.value.MatchSpecificType? ==>
      ip.value.wildcards == [] && r.value.dexType.sourceName == ip.value.pattern.value
    ensures r.Some? && r.value.MatchTypePattern? ==>
      ip.value.wildcards != [] && r.value == MatchTypePattern(ip.value.pattern.value, ip.value.wildcards, kind)
  {
    if ip.None? || ip.value.pattern.None? then None
    else
      var p := ip.value.pattern.value;
      if p == "***" then Some(MatchAllTypes)
      else if p == "..." then Some(MatchAnyArgSequence)
      else if p == "**" then Some(MatchClassTypes("**"))
      else if p == "*" then Some(MatchClassTypes("*"))
      else if p == "%" then Some(MatchBasicTypes)
      else if ip.value.wildcards == [] then Some(MatchSpecificType(DexType(p, sortOf(p))))
      else Some(MatchTypePattern(p, ip.value.wildcards, kind))
  }

  /** What a matcher needs of its capture state: one slot for each fixed matcher with a
      wildcard, an aligned wildcard list for a pattern. */
  predicate WellFormedState(m: Matcher, caps: Captures) {
    match m
    case MatchAllTypes => |caps| == 1
    case MatchClassTypes(_) => |caps| == 1
    case MatchBasicTypes => |caps| == 1
    case MatchTypePattern(p, ws, _) => AlignedAt(p, 0, ws, 0) && ValidCaptures(ws, caps)
    case _ => true
  }

  datatype MatchError = IllegalState

  function ClearAll(caps: Captures): (r: Captures)
    ensures |r| == |caps| && forall k :: 0 <= k < |r| ==> r[k].None?
  {
    seq(|caps|, _ => None)
  }

  /** `matches(DexType)`: whether the type matches, and the captures afterwards. */
  function Matches(m: Matcher, t: DexType, caps: Captures): (r: Result<(bool, Captures), MatchError>)
    requires WellFormedState(m, caps)
    ensures m.MatchAnyArgSequence? <==> r.Failure?
    ensures m.MatchAllTypes? ==> r == Success((true, [Some(t.sourceName)]))
    ensures m.MatchClassTypes? ==> r.Success? && (r.value.0 <==> t.sort == ClassSort)
    ensures m.MatchBasicTypes? ==> r.Success? && (r.value.0 <==> t.sort == PrimitiveSort)
    ensures m.MatchSpecificType? ==> r == Success((m.dexType == t, caps))
    ensures m.MatchTypePattern? && r.Success? && !r.value.0 ==>
      forall k :: 0 <= k < |r.value.1| ==> r.value.1[k].None?
    ensures r.Success? ==> |r.value.1| == |caps|
  {
    match m
    case MatchAllTypes => Success((true, [Some(t.sourceName)]))
    case MatchAnyArgSequence => Failure(IllegalState)
    case MatchClassTypes(_) =>
      if t.sort == ClassSort then Success((true, [Some(t.sourceName)])) else Success((false, caps))
    case MatchBasicTypes =>
      if t.sort == PrimitiveSort then Success((true, [Some(t.sourceName)])) else Success((false, caps))
    case MatchSpecificType(dt) => Success((dt == t, caps))
    case MatchTypePattern(p, ws, kind) =>
      var r := MatchFrom(p, 0, t.sourceName, 0, ws, 0, kind, caps);
      if r.0 then Success(r) else Success((false, ClearAll(r.1)))
  }

  /** The scan's literal-character rule, lifted to a matcher: a pattern matcher over a pattern
      without wildcards would accept just its own text. `Create` never builds one (such a
      pattern gives a specific-type matcher), so this is a statement about the scan. */
  lemma LiteralTypePattern(p: string, kind: ClassOrType, t: DexType)
    requires NoWildcards(p)
    ensures AlignedAt(p, 0, [], 0)
    ensures Matches(MatchTypePattern(p, [], kind), t, []).Success?
    ensures Matches(MatchTypePattern(p, [], kind), t, []).value.0 <==> p == t.sourceName
  {
    LiteralPatternIsAligned(p, 0);
    LiteralPatternMatchesExactly(p, 0, t.sourceName, 0, kind, []);
  }

  /** The type matches, with no error, from capture state `caps`. */
  predicate MatchesAt(m: Matcher, t: DexType, caps: Captures)
    requires WellFormedState(m, caps)
  {
    Matches(m, t, caps).Success? && Matches(m, t, caps).value.0
  }

  /** `matches(type, appView)`: the type itself, then, when classes were merged into it,
      any of the merged sources; the captures are threaded through the attempts. */
  function MatchesWithMergedSources(
    m: Matcher, t: DexType, mergedSources: Option<seq<DexType>>, caps: Captures)
    : (r: Result<(bool, Captures), MatchError>)
    requires WellFormedState(m, caps)
    ensures m.MatchAnyArgSequence? <==> r.Failure?
    ensures r.Success? ==>
      (r.value.0 <==>
         MatchesAt(m, t, caps) ||
         (mergedSources.Some? && exists k :: 0 <= k < |mergedSources.value| && MatchesAt(m, mergedSources.value[k], caps)))
  {
    var first :- Matches(m, t, caps);
    if first.0 then Success(first)
    else if mergedSources.None? then Success((false, first.1))
    else
      WellFormedStateKept(m, t, caps);
      var r := AnyMatch(m, mergedSources.value, first.1);
      assert r.Success? ==>
        (r.value.0 <==> exists k :: 0 <= k < |mergedSources.value| && MatchesAt(m, mergedSources.value[k], caps)) by {
        forall k | 0 <= k < |mergedSources.value|
          ensures MatchesAt(m, mergedSources.value[k], first.1) == MatchesAt(m, mergedSources.value[k], caps)
        {
          MatchOutcomeIgnoresCaptures(m, mergedSources.value[k], first.1, caps);
        }
      }
      r
  }

  /** The stream's `anyMatch`: tries the sources in order and stops at the first match. */
  function AnyMatch(m: Matcher, sources: seq<DexType>, caps: Captures): (r: Result<(bool, Captures), MatchError>)
    requires WellFormedState(m, caps)
    ensures m.MatchAnyArgSequence? && sources != [] <==> r.Failure?
    ensures r.Success? ==> WellFormedState(m, r.value.1)
    ensures r.Success? ==> (r.value.0 <==> exists k :: 0 <= k < |sources| && MatchesAt(m, sources[k], caps))
    decreases |sources|
  {
    if sources == [] then Success((false, caps))
    else
      var r0 :- Matches(m, sources[0], caps);
      WellFormedStateKept(m, sources[0], caps);
      if r0.0 then Success(r0)
      else
        var rest := AnyMatch(m, sources[1..], r0.1);
        assert rest.Success? ==>
          (rest.value.0 <==> exists k :: 0 <= k < |sources| && MatchesAt(m, sources[k], caps)) by {
          forall k | 0 <= k < |sources|
            ensures MatchesAt(m, sources[k], r0.1) == MatchesAt(m, sources[k], caps)
          {
            MatchOutcomeIgnoresCaptures(m, sources[k], r0.1, caps);
          }
          if rest.Success? && rest.value.0 {
            var k :| 0 <= k < |sources[1..]| && MatchesAt(m, sources[1..][k], r0.1);
            assert MatchesAt(m, sources[k + 1], caps);
          }
          if exists k :: 0 <= k < |sources| && MatchesAt(m, sources[k], caps) {
            var k :| 0 <= k < |sources| && MatchesAt(m, sources[k], caps);
            assert k != 0;
            assert MatchesAt(m, sources[1..][k - 1], r0.1);
          }
        }
        rest
  }

  lemma WellFormedStateKept(m: Matcher, t: DexType, caps: Captures)
    requires WellFormedState(m, caps) && Matches(m, t, caps).Success?
    ensures WellFormedState(m, Matches(m, t, caps).value.1)
  {
  }

  predicate AgreeBelow(c1: Captures, c2: Captures, n: nat) {
    n <= |c1| && n <= |c2| && forall k :: 0 <= k < n ==> c1[k] == c2[k]
  }

  /** The two capture states agree on the pattern wildcards below `n`. */
  predicate PatternsAgreeBelow(ws: seq<Wildcard>, c1: Captures, c2: Captures, n: nat) {
    n <= |ws| && n <= |c1| && n <= |c2| && forall k :: 0 <= k < n && ws[k].Pattern? ==> c1[k] == c2[k]
  }

  /** The scan from wildcard `wi` only writes captures at `wi` and beyond. */
  lemma {:induction false} MatchFromKeepsEarlierCaptures(
    p: string, i: nat, name: string, ni: nat, ws: seq<Wildcard>, wi: nat, kind: ClassOrType, caps: Captures)
    requires i <= |p| && ni <= |name|
    requires AlignedAt(p, i, ws, wi) && ValidCaptures(ws, caps)
    ensures AgreeBelow(MatchFrom(p, i, name, ni, ws, wi, kind, caps).1, caps, wi)
    decreases |p| - i, 1, 0
  {
    if i < |p| {
      AlignedStep(p, i, ws, wi);
      var c := p[i];
      if c == '*' {
        var next := StarEnd(p, i);
        if next < |p| {
          StarLoopKeepsEarlierCaptures(p, i, next, next >= i + 2, name, ni, ni, ws, wi, kind, caps);
        }
      } else if c == '?' {
        if ni < |name| && name[ni] != '.' {
          MatchFromKeepsEarlierCaptures(p, i + 1, name, ni + 1, ws, wi + 1, kind, caps[wi := Some(name[ni..ni + 1])]);
        }
      } else if c == '<' {
        var captured := caps[ws[wi].target];
        if !(captured.None? || |name| < ni + |captured.value| || captured.value != name[ni..ni + |captured.value|]) {
          MatchFromKeepsEarlierCaptures(p, IndexOf(p, '>', i).value + 1, name, ni + |captured.value|, ws, wi + 1, kind, caps);
        }
      } else if ni < |name| && c == name[ni] {
        MatchFromKeepsEarlierCaptures(p, i + 1, name, ni + 1, ws, wi, kind, caps);
      }
    }
  }

  lemma {:induction false} StarLoopKeepsEarlierCaptures(
    p: string, i: nat, next: nat, includeSeparators: bool, name: string, ni: nat, nni: nat,
    ws: seq<Wildcard>, wi: nat, kind: ClassOrType, caps: Captures)
    requires i < next < |p| && ni <= nni <= |name|
    requires wi < |ws| && AlignedAt(p, next, ws, wi + 1) && ValidCaptures(ws, caps)
    ensures AgreeBelow(StarLoop(p, i, next, includeSeparators, name, ni, nni, ws, wi, kind, caps).1, caps, wi)
    decreases |p| - i, 0, |name| - nni
  {
    if nni < |name| {
      var caps1 := caps[wi := Some(name[ni..nni])];
      MatchFromKeepsEarlierCaptures(p, next, name, nni, ws, wi + 1, kind, caps1);
      var attempt := MatchFrom(p, next, name, nni, ws, wi + 1, kind, caps1);
      if !(!includeSeparators && name[nni] == '.') && !(kind == TYPE && name[nni] == '[') && !attempt.0 {
        StarLoopKeepsEarlierCaptures(p, i, next, includeSeparators, name, ni, nni + 1, ws, wi, kind, attempt.1);
      }
    } else {
      MatchFromKeepsEarlierCaptures(p, next, name, |name|, ws, wi + 1, kind, caps[wi := Some(name[ni..])]);
    }
  }

  /** Whether the scan from wildcard `wi` succeeds does not depend on the captures at `wi`
      and beyond, nor on the slots of back references: back references only read pattern
      captures the scan itself has set. */
  lemma {:induction false} MatchFromIgnoresLaterCaptures(
    p: string, i: nat, name: string, ni: nat, ws: seq<Wildcard>, wi: nat, kind: ClassOrType,
    c1: Captures, c2: Captures)
    requires i <= |p| && ni <= |name|
    requires AlignedAt(p, i, ws, wi) && ValidCaptures(ws, c1) && ValidCaptures(ws, c2)
    requires PatternsAgreeBelow(ws, c1, c2, wi)
    ensures MatchFrom(p, i, name, ni, ws, wi, kind, c1).0 == MatchFrom(p, i, name, ni, ws, wi, kind, c2).0
    decreases |p| - i, 1, 0
  {
    if i < |p| {
      AlignedStep(p, i, ws, wi);
      var c := p[i];
      if c == '*' {
        var next := StarEnd(p, i);
        if next < |p| {
          StarLoopIgnoresLaterCaptures(p, i, next, next >= i + 2, name, ni, ni, ws, wi, kind, c1, c2);
        }
      } else if c == '?' {
        if ni < |name| && name[ni] != '.' {
          var x := Some(name[ni..ni + 1]);
          MatchFromIgnoresLaterCaptures(p, i + 1, name, ni + 1, ws, wi + 1, kind, c1[wi := x], c2[wi := x]);
        }
      } else if c == '<' {
        BackReferenceIgnoresLaterCaptures(p, i, name, ni, ws, wi, kind, c1, c2);
      } else if ni < |name| && c == name[ni] {
        MatchFromIgnoresLaterCaptures(p, i + 1, name, ni + 1, ws, wi, kind, c1, c2);
      }
    }
  }

  lemma {:induction false} BackReferenceIgnoresLaterCaptures(
    p: string, i: nat, name: string, ni: nat, ws: seq<Wildcard>, wi: nat, kind: ClassOrType,
    c1: Captures, c2: Captures)
    requires i < |p| && ni <= |name| && p[i] == '<'
    requires AlignedAt(p, i, ws, wi) && ValidCaptures(ws, c1) && ValidCaptures(ws, c2)
    requires PatternsAgreeBelow(ws, c1, c2, wi)
    ensures MatchFrom(p, i, name, ni, ws, wi, kind, c1).0 == MatchFrom(p, i, name, ni, ws, wi, kind, c2).0
    decreases |p| - i, 0, 0
  {
    AlignedStep(p, i, ws, wi);
    assert ws[wi].target < wi;
    assert c1[ws[wi].target] == c2[ws[wi].target];
    var captured := c1[ws[wi].target];
    if !(captured.None? || |name| < ni + |captured.value| || captured.value != name[ni..ni + |captured.value|]) {
      MatchFromIgnoresLaterCaptures(p, IndexOf(p, '>', i).value + 1, name, ni + |captured.value|, ws, wi + 1, kind, c1, c2);
    }
  }

  lemma {:induction false} StarLoopIgnoresLaterCaptures(
    p: string, i: nat, next: nat, includeSeparators: bool, name: string, ni: nat, nni: nat,
    ws: seq<Wildcard>, wi: nat, kind: ClassOrType, c1: Captures, c2: Captures)
    requires i < next < |p| && ni <= nni <= |name|
    requires wi < |ws| && AlignedAt(p, next, ws, wi + 1) && ValidCaptures(ws, c1) && ValidCaptures(ws, c2)
    requires PatternsAgreeBelow(ws, c1, c2, wi)
    ensures StarLoop(p, i, next, includeSeparators, name, ni, nni, ws, wi, kind, c1).0 ==
            StarLoop(p, i, next, includeSeparators, name, ni, nni, ws, wi, kind, c2).0
    decreases |p| - i, 0, |name| - nni
  {
    if nni < |name| {
      var x := Some(name[ni..nni]);
      var d1 := c1[wi := x];
      var d2 := c2[wi := x];
      MatchFromIgnoresLaterCaptures(p, next, name, nni, ws, wi + 1, kind, d1, d2);
      var a1 := MatchFrom(p, next, name, nni, ws, wi + 1, kind, d1);
      var a2 := MatchFrom(p, next, name, nni, ws, wi + 1, kind, d2);
      if !(!includeSeparators && name[nni] == '.') && !(kind == TYPE && name[nni] == '[') && !a1.0 {
        MatchFromKeepsEarlierCaptures(p, next, name, nni, ws, wi + 1, kind, d1);
        MatchFromKeepsEarlierCaptures(p, next, name, nni, ws, wi + 1, kind, d2);
        assert PatternsAgreeBelow(ws, a1.1, a2.1, wi) by {
          forall k | 0 <= k < wi && ws[k].Pattern? ensures a1.1[k] == a2.1[k] {
            assert a1.1[k] == d1[k] && a2.1[k] == d2[k];
          }
        }
        StarLoopIgnoresLaterCaptures(p, i, next, includeSeparators, name, ni, nni + 1, ws, wi, kind, a1.1, a2.1);
      }
    } else {
      var x := Some(name[ni..]);
      MatchFromIgnoresLaterCaptures(p, next, name, |name|, ws, wi + 1, kind, c1[wi := x], c2[wi := x]);
    }
  }

  /** Whether a matcher accepts a type never depends on what earlier matches captured. */
  lemma MatchOutcomeIgnoresCaptures(m: Matcher, t: DexType, c1: Captures, c2: Captures)
    requires WellFormedState(m, c1) && WellFormedState(m, c2)
    ensures MatchesAt(m, t, c1) == MatchesAt(m, t, c2)
  {
    if m.MatchTypePattern? {
      MatchFromIgnoresLaterCaptures(m.pattern, 0, t.sourceName, 0, m.wildcards, 0, m.kind, c1, c2);
    }
  }

  /** `equals`: a pattern matcher is identified by its kind and pattern text, never by
      its wildcard objects; a class matcher by its pattern; an exact matcher by its type. */
  predicate MatcherEquals(a: Matcher, b: Matcher) {
    match a
    case MatchTypePattern(p, _, k) => b.MatchTypePattern? && b.kind == k && b.pattern == p
    case MatchClassTypes(p) => b.MatchClassTypes? && b.pattern == p
    case MatchSpecificType(t) => b.MatchSpecificType? && b.dexType == t
    case MatchAllTypes => b.MatchAllTypes?
    case MatchAnyArgSequence => b.MatchAnyArgSequence?
    case MatchBasicTypes => b.MatchBasicTypes?
  }

  /** `hashCode` of a pattern matcher, over the hashes of the pattern text and the kind. */
  function PatternHash(m: Matcher, stringHash: string -> int, kindHash: ClassOrType -> int): int
    requires m.MatchTypePattern?
  {
    stringHash(m.pattern) * 7 + kindHash(m.kind)
  }

  /** Equality is an equivalence; creating from the same text and kind gives equal matchers
      whatever wildcard objects were used, and equal pattern matchers hash alike. */
  lemma MatcherEqualsIsEquivalence(
    a: Matcher, b: Matcher, c: Matcher, stringHash: string -> int, kindHash: ClassOrType -> int)
    ensures MatcherEquals(a, a)
    ensures MatcherEquals(a, b) ==> MatcherEquals(b, a)
    ensures MatcherEquals(a, b) && MatcherEquals(b, c) ==> MatcherEquals(a, c)
    ensures MatcherEquals(a, b) && a.MatchTypePattern? ==>
      b.MatchTypePattern? && PatternHash(a, stringHash, kindHash) == PatternHash(b, stringHash, kindHash)
  {
  }

  lemma CreateIgnoresWildcardIdentity(
    p: string, ws1: seq<Wildcard>, ws2: seq<Wildcard>, kind: ClassOrType, sortOf: string -> TypeSort)
    requires (ws1 == []) == (ws2 == [])
    ensures var r1 := Create(Some(IdentifierPattern(Some(p), ws1)), kind, sortOf);
            var r2 := Create(Some(IdentifierPattern(Some(p), ws2)), kind, sortOf);
            r1.Some? && r2.Some? && MatcherEquals(r1.value, r2.value)
  {
  }
}
