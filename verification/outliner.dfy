/** The outliner's driver around the spotter: the candidate map of the first pass, the
    methods and outlines it selects, the sorted and numbered outline methods, the call the
    rewriter puts in place of each occurrence, and the bookkeeping that checks every site
    of a generated outline is found again. */
module Outliner {
  import opened Wrappers
  import opened OutlineInstructions
  import opened Outlines
  import opened OutlineSpotter

  /** A method, by identity. */
  type MethodId = nat

  /** One occurrence of an outline, in a method. */
  datatype Site = Site(outline: Outline, methodId: MethodId)

  /** The methods in which `o` occurs, with one copy per occurrence. */
  function Occurrences(events: seq<Site>, o: Outline): multiset<MethodId>
    decreases |events|
  {
    if events == [] then multiset{}
    else
      var e := events[|events| - 1];
      Occurrences(events[..|events| - 1], o) + (if e.outline == o then multiset{e.methodId} else multiset{})
  }

  lemma {:induction false} OccurrencesMembership(events: seq<Site>, o: Outline, m: MethodId)
    ensures m in Occurrences(events, o) <==> Site(o, m) in events
    decreases |events|
  {
    if events != [] {
      var p := events[..|events| - 1];
      OccurrencesMembership(p, o, m);
      assert events == p + [events[|events| - 1]];
    }
  }

  /** The occurrences the spotter finds in the blocks of a method, block by block. */
  function MethodSites(m: MethodId, blocks: seq<seq<Instruction>>, opts: OutlineOptions, mode: RegisterBudget): seq<Site>
    requires forall b :: 0 <= b < |blocks| ==> WellFormedCode(blocks[b])
    decreases |blocks|
  {
    if blocks == [] then []
    else
      var last := blocks[|blocks| - 1];
      MethodSites(m, blocks[..|blocks| - 1], opts, mode) + CandidateSites(m, Spot(last, opts, mode))
  }

  function CandidateSites(m: MethodId, cs: seq<Candidate>): (r: seq<Site>)
    ensures |r| == |cs| && forall k :: 0 <= k < |r| ==> r[k] == Site(cs[k].outline, m)
    decreases |cs|
  {
    if cs == [] then [] else [Site(cs[0].outline, m)] + CandidateSites(m, cs[1..])
  }

  // The first pass: every outline with the methods it was spotted in.

  type CandidateMap = map<Outline, multiset<MethodId>>

  /** `candidateMap.computeIfAbsent(outline, ...).add(method)`. */
  function RecordCandidate(cm: CandidateMap, e: Site): CandidateMap {
    cm[e.outline := (if e.outline in cm then cm[e.outline] else multiset{}) + multiset{e.methodId}]
  }

  function RecordCandidates(cm: CandidateMap, events: seq<Site>): CandidateMap
    decreases |events|
  {
    if events == [] then cm
    else RecordCandidate(RecordCandidates(cm, events[..|events| - 1]), events[|events| - 1])
  }

  /** From an empty map, the candidate map holds each spotted outline with exactly the
      methods it occurs in, as often as it occurs there. */
  lemma {:induction false} CandidateMapCountsOccurrences(events: seq<Site>)
    ensures var cm := RecordCandidates(map[], events);
      forall o :: (o in cm <==> Occurrences(events, o) != multiset{}) &&
                  (o in cm ==> cm[o] == Occurrences(events, o))
    decreases |events|
  {
    if events != [] {
      CandidateMapCountsOccurrences(events[..|events| - 1]);
    }
  }

  /** `selectMethodsForOutlining`: the methods holding an outline recorded at least
      `threshold` times. */
  function SelectMethods(cm: CandidateMap, threshold: nat): set<MethodId> {
    set o, m | o in cm && m in cm[o] && |cm[o]| >= threshold :: m
  }

  /** A method is selected exactly when it holds an outline that occurs at least
      `threshold` times across all methods. */
  lemma SelectedMethodsHoldFrequentOutlines(events: seq<Site>, threshold: nat, m: MethodId)
    ensures m in SelectMethods(RecordCandidates(map[], events), threshold) <==>
            exists o :: Site(o, m) in events && |Occurrences(events, o)| >= threshold
  {
    CandidateMapCountsOccurrences(events);
    var cm := RecordCandidates(map[], events);
    if m in SelectMethods(cm, threshold) {
      var o :| o in cm && m in cm[o] && |cm[o]| >= threshold;
      OccurrencesMembership(events, o, m);
    }
    if exists o :: Site(o, m) in events && |Occurrences(events, o)| >= threshold {
      var o :| Site(o, m) in events && |Occurrences(events, o)| >= threshold;
      OccurrencesMembership(events, o, m);
      assert m in cm[o];
    }
  }

  // The second pass: the sites of every outline, in the order found.

  type SiteMap = map<Outline, seq<MethodId>>

  /** `outlineSites.computeIfAbsent(outline, ...).add(method)`. */
  function RecordSite(sites: SiteMap, e: Site): SiteMap {
    sites[e.outline := (if e.outline in sites then sites[e.outline] else []) + [e.methodId]]
  }

  function RecordSites(sites: SiteMap, events: seq<Site>): SiteMap
    decreases |events|
  {
    if events == [] then sites
    else RecordSite(RecordSites(sites, events[..|events| - 1]), events[|events| - 1])
  }

  /** From an empty map, every recorded outline has a non-empty site list holding its
      occurrences. */
  lemma {:induction false} SiteMapCountsOccurrences(events: seq<Site>)
    ensures var sites := RecordSites(map[], events);
      forall o :: (o in sites <==> Occurrences(events, o) != multiset{}) &&
                  (o in sites ==> sites[o] != [] && multiset(sites[o]) == Occurrences(events, o))
    decreases |events|
  {
    if events != [] {
      SiteMapCountsOccurrences(events[..|events| - 1]);
    }
  }

  /** `selectOutlines`: the outlines with at least `threshold` sites, in the order the site
      map is enumerated. */
  function SelectOutlines(entries: seq<Outline>, sites: SiteMap, threshold: nat): (r: seq<Outline>)
    requires forall i :: 0 <= i < |entries| ==> entries[i] in sites
    decreases |entries|
  {
    if entries == [] then []
    else
      var rest := SelectOutlines(entries[1..], sites, threshold);
      if |sites[entries[0]]| >= threshold then [entries[0]] + rest else rest
  }

  lemma {:induction false} SelectOutlinesFilters(entries: seq<Outline>, sites: SiteMap, threshold: nat)
    requires forall i :: 0 <= i < |entries| ==> entries[i] in sites
    ensures var r := SelectOutlines(entries, sites, threshold);
      (forall o :: o in r <==> o in entries && |sites[o]| >= threshold) &&
      (Distinct(entries) ==> Distinct(r)) &&
      (AllWellFormed(entries) ==> AllWellFormed(r))
    decreases |entries|
  {
    if entries != [] {
      SelectOutlinesFilters(entries[1..], sites, threshold);
      assert forall o :: o in entries <==> o == entries[0] || o in entries[1..];
      var r := SelectOutlines(entries, sites, threshold);
      if AllWellFormed(entries) {
        forall i | 0 <= i < |r| ensures WellFormedOutline(r[i]) {
          assert r[i] in entries;
        }
      }
    }
  }

  predicate Distinct<T(==)>(xs: seq<T>) {
    forall i, j :: 0 <= i < j < |xs| ==> xs[i] != xs[j]
  }

  /** The outlines selected from the sites of the second pass are those occurring at least
      `threshold` times, and at least once: none has an empty site list. */
  lemma SelectedOutlinesAreFrequent(events: seq<Site>, entries: seq<Outline>, threshold: nat, o: Outline)
    requires forall p :: p in entries <==> p in RecordSites(map[], events)
    ensures var sites := RecordSites(map[], events);
      o in SelectOutlines(entries, sites, threshold) <==>
        Occurrences(events, o) != multiset{} && |Occurrences(events, o)| >= threshold
    ensures o in SelectOutlines(entries, RecordSites(map[], events), threshold) ==>
      o in RecordSites(map[], events) && RecordSites(map[], events)[o] != []
  {
    var sites := RecordSites(map[], events);
    SiteMapCountsOccurrences(events);
    assert forall i :: 0 <= i < |entries| ==> entries[i] in sites;
    SelectOutlinesFilters(entries, sites, threshold);
    if o in sites {
      assert |sites[o]| == |multiset(sites[o])|;
    }
  }

  // Building the outliner class: the selected outlines sorted, then numbered.

  predicate AllWellFormed(xs: seq<Outline>) {
    forall i :: 0 <= i < |xs| ==> WellFormedOutline(xs[i])
  }

  /** Strictly ascending in the outline order. */
  predicate Sorted(xs: seq<Outline>)
    requires AllWellFormed(xs)
  {
    forall i, j :: 0 <= i < j < |xs| ==> Outlines.Compare(xs[i], xs[j]) < 0
  }

  function Insert(o: Outline, xs: seq<Outline>): (r: seq<Outline>)
    requires WellFormedOutline(o) && AllWellFormed(xs) && Sorted(xs) && o !in xs
    ensures AllWellFormed(r) && Sorted(r) && multiset(r) == multiset(xs) + multiset{o}
    decreases |xs|
  {
    if xs == [] then [o]
    else if Outlines.Compare(o, xs[0]) < 0 then
      InsertFirstIsSorted(o, xs);
      [o] + xs
    else
      SortedTail(xs);
      assert o !in xs[1..];
      var rest := Insert(o, xs[1..]);
      InsertLaterIsSorted(o, xs, rest);
      [xs[0]] + rest
  }

  lemma InsertFirstIsSorted(o: Outline, xs: seq<Outline>)
    requires WellFormedOutline(o) && AllWellFormed(xs) && Sorted(xs) && xs != [] && Outlines.Compare(o, xs[0]) < 0
    ensures AllWellFormed([o] + xs) && Sorted([o] + xs)
  {
    var r := [o] + xs;
    forall i, j | 0 <= i < j < |r| ensures Outlines.Compare(r[i], r[j]) < 0 {
      if i == 0 && j > 1 {
        Outlines.CompareIsTotalOrder(o, xs[0], xs[j - 1]);
      }
    }
  }

  lemma InsertLaterIsSorted(o: Outline, xs: seq<Outline>, rest: seq<Outline>)
    requires WellFormedOutline(o) && AllWellFormed(xs) && Sorted(xs) && xs != [] && o !in xs
    requires Outlines.Compare(o, xs[0]) >= 0
    requires AllWellFormed(rest) && Sorted(rest) && multiset(rest) == multiset(xs[1..]) + multiset{o}
    ensures AllWellFormed([xs[0]] + rest) && Sorted([xs[0]] + rest)
    ensures multiset([xs[0]] + rest) == multiset(xs) + multiset{o}
  {
    assert xs == [xs[0]] + xs[1..];
    Outlines.CompareIsTotalOrder(o, xs[0], o);
    Outlines.EqualsIsIdentity(o, xs[0]);
    assert Outlines.Compare(xs[0], o) < 0;
    var r := [xs[0]] + rest;
    forall i, j | 0 <= i < j < |r| ensures Outlines.Compare(r[i], r[j]) < 0 {
      if i == 0 {
        var x := rest[j - 1];
        assert x in multiset(rest);
        if x != o {
          assert x in xs[1..];
          var k :| 1 <= k < |xs| && xs[k] == x;
        }
      } else {
        assert r[i] == rest[i - 1] && r[j] == rest[j - 1];
      }
    }
  }

  /** The natural-order sort of the selected outlines. */
  function SortOutlines(xs: seq<Outline>): (r: seq<Outline>)
    requires AllWellFormed(xs) && Distinct(xs)
    ensures AllWellFormed(r) && Sorted(r) && multiset(r) == multiset(xs)
    decreases |xs|
  {
    if xs == [] then []
    else
      assert xs == [xs[0]] + xs[1..];
      var rest := SortOutlines(xs[1..]);
      assert xs[0] !in multiset(rest);
      Insert(xs[0], rest)
  }

  /** Sorting leaves no choice: two sorted lists of the same outlines are the same list. */
  lemma {:induction false} SortedIsCanonical(a: seq<Outline>, b: seq<Outline>)
    requires AllWellFormed(a) && AllWellFormed(b) && Sorted(a) && Sorted(b)
    requires multiset(a) == multiset(b)
    ensures a == b
    decreases |a|
  {
    SameMultisetSameLength(a, b);
    if a != [] {
      SortedHeadsAgree(a, b);
      SortedTail(a);
      SortedTail(b);
      TailMultiset(a);
      TailMultiset(b);
      SortedIsCanonical(a[1..], b[1..]);
      SameHeadAndTail(a, b);
    }
  }

  lemma SameMultisetSameLength(a: seq<Outline>, b: seq<Outline>)
    requires multiset(a) == multiset(b)
    ensures |a| == |b|
  {
    assert |a| == |multiset(a)| == |b|;
  }

  lemma TailMultiset(a: seq<Outline>)
    requires a != []
    ensures multiset(a[1..]) == multiset(a) - multiset{a[0]}
  {
    assert a == [a[0]] + a[1..];
  }

  lemma SameHeadAndTail(a: seq<Outline>, b: seq<Outline>)
    requires a != [] && b != [] && a[0] == b[0] && a[1..] == b[1..]
    ensures a == b
  {
    assert a == [a[0]] + a[1..] && b == [b[0]] + b[1..];
  }

  lemma SortedHeadIsLeast(a: seq<Outline>, x: Outline)
    requires AllWellFormed(a) && Sorted(a) && x in a && x != a[0]
    ensures Outlines.Compare(a[0], x) < 0
  {
    var j :| 0 <= j < |a| && a[j] == x;
  }

  lemma SortedHeadsAgree(a: seq<Outline>, b: seq<Outline>)
    requires AllWellFormed(a) && AllWellFormed(b) && Sorted(a) && Sorted(b)
    requires multiset(a) == multiset(b) && a != [] && b != []
    ensures a[0] == b[0]
  {
    assert a[0] in multiset(b) && b[0] in multiset(a);
    if a[0] != b[0] {
      SortedHeadIsLeast(a, b[0]);
      SortedHeadIsLeast(b, a[0]);
      Outlines.CompareIsTotalOrder(a[0], b[0], a[0]);
      assert false;
    }
  }

  lemma SortedTail(a: seq<Outline>)
    requires AllWellFormed(a) && Sorted(a) && a != []
    ensures AllWellFormed(a[1..]) && Sorted(a[1..])
  {
  }

  /** The method number of every outline of `sorted[i..]`: outline `k` becomes the method
      named with the outline prefix followed by `k`. */
  function Numbering(sorted: seq<Outline>, i: nat): (r: map<Outline, nat>)
    requires i <= |sorted| && Distinct(sorted)
    ensures forall o :: o in r <==> o in sorted[i..]
    ensures forall k :: i <= k < |sorted| ==> sorted[k] in r && r[sorted[k]] == k
    decreases |sorted| - i
  {
    if i == |sorted| then map[]
    else
      assert sorted[i..] == [sorted[i]] + sorted[i + 1..];
      Numbering(sorted, i + 1)[sorted[i] := i]
  }

  lemma SortedIsDistinct(xs: seq<Outline>)
    requires AllWellFormed(xs) && Sorted(xs)
    ensures Distinct(xs)
  {
    forall i, j | 0 <= i < j < |xs| ensures xs[i] != xs[j] {
      Outlines.CompareIsTotalOrder(xs[i], xs[j], xs[j]);
      Outlines.EqualsIsIdentity(xs[i], xs[j]);
    }
  }

  /** `buildOutlinerClass`: the selected outlines in the outline order, and the number of
      the method generated for each. */
  function BuildOutlines(entries: seq<Outline>, sites: SiteMap, threshold: nat): (r: (seq<Outline>, map<Outline, nat>))
    requires Distinct(entries) && AllWellFormed(entries)
    requires forall i :: 0 <= i < |entries| ==> entries[i] in sites
  {
    SelectOutlinesFilters(entries, sites, threshold);
    var selected := SelectOutlines(entries, sites, threshold);
    var sorted := SortOutlines(selected);
    SortedIsDistinct(sorted);
    (sorted, Numbering(sorted, 0))
  }

  /** The generated methods are numbered `0, 1, ...` in the outline order, one per
      outline with at least `threshold` sites, whatever order the site map is enumerated
      in. */
  lemma GeneratedOutlinesAreDeterministic(e1: seq<Outline>, e2: seq<Outline>, sites: SiteMap, threshold: nat)
    requires Distinct(e1) && AllWellFormed(e1) && Distinct(e2) && AllWellFormed(e2)
    requires forall o :: o in e1 <==> o in sites
    requires forall o :: o in e2 <==> o in sites
    ensures BuildOutlines(e1, sites, threshold) == BuildOutlines(e2, sites, threshold)
    ensures var r := BuildOutlines(e1, sites, threshold);
      Sorted(r.0) &&
      (forall o :: o in r.1 <==> o in sites && |sites[o]| >= threshold) &&
      (forall k :: 0 <= k < |r.0| ==> r.1[r.0[k]] == k)
  {
    SelectOutlinesFilters(e1, sites, threshold);
    SelectOutlinesFilters(e2, sites, threshold);
    var s1 := SelectOutlines(e1, sites, threshold);
    var s2 := SelectOutlines(e2, sites, threshold);
    DistinctSameMembers(s1, s2);
    SortedIsCanonical(SortOutlines(s1), SortOutlines(s2));
    var sorted := SortOutlines(s1);
    assert forall o :: o in sorted <==> o in multiset(s1);
  }

  lemma DistinctSameMembers<T>(a: seq<T>, b: seq<T>)
    requires Distinct(a) && Distinct(b) && forall x :: x in a <==> x in b
    ensures multiset(a) == multiset(b)
  {
    forall x ensures multiset(a)[x] == multiset(b)[x] {
      DistinctCount(a, x);
      DistinctCount(b, x);
    }
  }

  lemma {:induction false} DistinctCount<T>(a: seq<T>, x: T)
    requires Distinct(a)
    ensures multiset(a)[x] == if x in a then 1 else 0
    decreases |a|
  {
    if a != [] {
      assert a == [a[0]] + a[1..];
      DistinctCount(a[1..], x);
    }
  }

  // The rewriting pass: each occurrence of a generated outline gives back one site.

  /** `ListUtils.removeFirstMatch` for a method: whether it was found, and the list without
      its first occurrence. */
  function RemoveFirst(xs: seq<MethodId>, m: MethodId): (r: (bool, seq<MethodId>))
    ensures r.0 <==> m in xs
    ensures r.0 ==> multiset(r.1) == multiset(xs) - multiset{m} && |r.1| == |xs| - 1
    ensures !r.0 ==> r.1 == xs
    decreases |xs|
  {
    if xs == [] then (false, xs)
    else if xs[0] == m then
      assert xs == [m] + xs[1..];
      (true, xs[1..])
    else
      assert xs == [xs[0]] + xs[1..];
      var rest := RemoveFirst(xs[1..], m);
      (rest.0, [xs[0]] + rest.1)
  }

  /** `removeMethodFromOutlineList` for an occurrence of an outline that was generated;
      other occurrences are not rewritten and leave the sites alone. */
  function RemoveSite(sites: SiteMap, generated: set<Outline>, e: Site): (bool, SiteMap) {
    if e.outline in generated && e.outline in sites then
      var r := RemoveFirst(sites[e.outline], e.methodId);
      (r.0, sites[e.outline := r.1])
    else (e.outline !in generated, sites)
  }

  /** The rewriting pass over its occurrences: whether every removal found its site, and
      the sites left. */
  function RemoveSites(sites: SiteMap, generated: set<Outline>, events: seq<Site>): (bool, SiteMap)
    decreases |events|
  {
    if events == [] then (true, sites)
    else
      var p := RemoveSites(sites, generated, events[..|events| - 1]);
      var q := RemoveSite(p.1, generated, events[|events| - 1]);
      (p.0 && q.0, q.1)
  }

  /** The rewriting pass touches only the sites of generated outlines. */
  lemma {:induction false} RemoveSitesKeepsOthers(sites: SiteMap, generated: set<Outline>, events: seq<Site>)
    requires generated <= sites.Keys
    ensures var r := RemoveSites(sites, generated, events);
      r.1.Keys == sites.Keys && forall o :: o in sites && o !in generated ==> r.1[o] == sites[o]
    decreases |events|
  {
    if events != [] {
      RemoveSitesKeepsOthers(sites, generated, events[..|events| - 1]);
    }
  }

  /** Each rewritten occurrence removes exactly one site of its outline: as long as the
      occurrences do not outnumber the sites, what is left is the sites minus the
      occurrences. */
  lemma {:induction false} RemoveSitesCount(sites: SiteMap, generated: set<Outline>, events: seq<Site>, o: Outline)
    requires generated <= sites.Keys && o in generated
    requires Occurrences(events, o) <= multiset(sites[o])
    ensures var r := RemoveSites(sites, generated, events);
      o in r.1 && multiset(r.1[o]) == multiset(sites[o]) - Occurrences(events, o)
    decreases |events|
  {
    if events != [] {
      var prefix := events[..|events| - 1];
      var e := events[|events| - 1];
      assert Occurrences(events, o) == Occurrences(prefix, o) +
        (if e.outline == o then multiset{e.methodId} else multiset{});
      RemoveSitesCount(sites, generated, prefix, o);
      RemoveSitesKeepsOthers(sites, generated, prefix);
      var p := RemoveSites(sites, generated, prefix);
      var a := Occurrences(prefix, o);
      if e.outline == o {
        assert e.methodId in multiset(p.1[o]);
        RemoveSiteEffect(p.1, generated, e, o);
        MultisetDifferenceStep(multiset(sites[o]), a, e.methodId);
      } else {
        RemoveSiteEffect(p.1, generated, e, o);
      }
    }
  }

  lemma MultisetDifferenceStep(s: multiset<MethodId>, a: multiset<MethodId>, m: MethodId)
    requires a + multiset{m} <= s
    ensures (s - a) - multiset{m} == s - (a + multiset{m})
  {
  }

  /** One occurrence: removal from its own outline's sites only, successful exactly when
      the method is among them. */
  lemma RemoveSiteEffect(sites: SiteMap, generated: set<Outline>, e: Site, o: Outline)
    requires generated <= sites.Keys && o in sites
    ensures var q := RemoveSite(sites, generated, e);
      q.1.Keys == sites.Keys &&
      (e.outline != o ==> q.1[o] == sites[o]) &&
      (e.outline == o && o in generated ==>
        (q.0 <==> e.methodId in sites[o]) &&
        (e.methodId in sites[o] ==> multiset(q.1[o]) == multiset(sites[o]) - multiset{e.methodId}))
  {
  }

  /** Every removal finds its site while no outline has more occurrences than sites. */
  lemma {:induction false} RemoveSitesSucceed(sites: SiteMap, generated: set<Outline>, events: seq<Site>)
    requires generated <= sites.Keys
    requires forall o :: o in generated ==> Occurrences(events, o) <= multiset(sites[o])
    ensures RemoveSites(sites, generated, events).0
    decreases |events|
  {
    if events != [] {
      var prefix := events[..|events| - 1];
      var e := events[|events| - 1];
      forall o | o in generated ensures Occurrences(prefix, o) <= multiset(sites[o]) {
        assert Occurrences(events, o) == Occurrences(prefix, o) +
          (if e.outline == o then multiset{e.methodId} else multiset{});
      }
      RemoveSitesSucceed(sites, generated, prefix);
      if e.outline in generated {
        RemoveSitesCount(sites, generated, prefix, e.outline);
        RemoveSitesKeepsOthers(sites, generated, prefix);
        assert Occurrences(events, e.outline) == Occurrences(prefix, e.outline) + multiset{e.methodId};
        var p := RemoveSites(sites, generated, prefix);
        assert e.methodId in multiset(p.1[e.outline]);
      }
    }
  }

  /** `checkAllOutlineSitesFoundAgain`: when the rewriting pass spots every generated
      outline in the same methods, as often, as the second pass did, every removal finds
      its site and every generated outline is left without sites. */
  lemma AllOutlineSitesFoundAgain(recorded: seq<Site>, rewritten: seq<Site>, generated: set<Outline>)
    requires generated <= RecordSites(map[], recorded).Keys
    requires forall o :: o in generated ==> Occurrences(rewritten, o) == Occurrences(recorded, o)
    ensures var r := RemoveSites(RecordSites(map[], recorded), generated, rewritten);
      r.0 && forall o :: o in generated ==> o in r.1 && r.1[o] == []
  {
    var sites := RecordSites(map[], recorded);
    SiteMapCountsOccurrences(recorded);
    RemoveSitesSucceed(sites, generated, rewritten);
    var r := RemoveSites(sites, generated, rewritten);
    forall o | o in generated ensures o in r.1 && r.1[o] == [] {
      RemoveSitesCount(sites, generated, rewritten, o);
      assert multiset(r.1[o]) == multiset{};
    }
  }

  // The call the rewriter puts in place of an occurrence.

  /** The in-values the rewriter walks over in `[i, end[`, each instruction's operands in
      the order `orderedInValues` gives them, with the last out-value seen. */
  function WindowInValues(code: seq<Instruction>, i: nat, end: nat, rv: Option<Value>): (r: (seq<Value>, Option<Value>))
    requires i <= end <= |code|
    decreases end - i
  {
    if i == end then ([], rv)
    else if IsConst(code[i]) then WindowInValues(code, i + 1, end, rv)
    else
      var vs := OrderedInValues(code[i], rv);
      var rv' := if code[i].outValue.Some? then code[i].outValue else rv;
      var rest := WindowInValues(code, i + 1, end, rv');
      (vs + rest.0, rest.1)
  }

  /** The `in` list of the outline call: an in-value becomes the next argument when its
      map entry is not below the number of arguments collected so far. */
  function CollectArguments(values: seq<Value>, m: seq<int>): seq<Value>
    requires |values| == |m|
    decreases |m|
  {
    if m == [] then []
    else
      var n := |m| - 1;
      var acc := CollectArguments(values[..n], m[..n]);
      if m[n] >= |acc| then acc + [values[n]] else acc
  }

  /** Over an incremental map, the call gets one argument per new map entry, each the
      in-value at the entry that introduced it. */
  lemma {:induction false} CollectArgumentsFollowsMap(values: seq<Value>, m: seq<int>)
    requires |values| == |m| && IncrementalMap(m)
    ensures var r := CollectArguments(values, m);
      |r| == FreshCount(m) &&
      forall j :: 0 <= j < |m| && m[j] == FreshCount(m[..j]) ==> m[j] < |r| && r[m[j]] == values[j]
    decreases |m|
  {
    if m != [] {
      var n := |m| - 1;
      CollectArgumentsFollowsMap(values[..n], m[..n]);
      var acc := CollectArguments(values[..n], m[..n]);
      var r := CollectArguments(values, m);
      IncrementalMapEntriesValid(m);
      forall j | 0 <= j < |m| && m[j] == FreshCount(m[..j]) ensures m[j] < |r| && r[m[j]] == values[j] {
        if j < n {
          assert m[..n][..j] == m[..j];
          assert m[..n][j] == m[j] && values[..n][j] == values[j];
          assert acc[m[j]] == values[j];
          assert r[..|acc|] == acc;
        } else {
          assert m[..j] == m[..n];
        }
      }
    }
  }

  lemma {:induction false} SumInputsFront(code: seq<Instruction>, i: nat, end: nat)
    requires i < end <= |code|
    ensures SumInputs(code, i, end) == InputCount(code[i]) + SumInputs(code, i + 1, end)
    decreases end - i
  {
    if i + 1 < end {
      SumInputsFront(code, i, end - 1);
    }
  }

  /** In a window of constants and instructions with a template, the rewriter walks over
      exactly as many in-values as the argument map has entries. */
  lemma {:induction false} WindowInValuesCount(code: seq<Instruction>, i: nat, end: nat, rv: Option<Value>)
    requires i <= end <= |code| && WellFormedCode(code)
    requires forall k :: i <= k < end ==> IsConst(code[k]) || IsTemplated(code[k])
    ensures |WindowInValues(code, i, end, rv).0| == SumInputs(code, i, end)
    decreases end - i
  {
    if i < end {
      SumInputsFront(code, i, end);
      var rv' := if code[i].outValue.Some? then code[i].outValue else rv;
      WindowInValuesCount(code, i + 1, end, if IsConst(code[i]) then rv else rv');
    }
  }

  /** `OutlineRewriter.handle`: the arguments of the call to the generated method. */
  function CallArguments(c: Candidate, code: seq<Instruction>): seq<Value>
    requires c.start <= c.end <= |code|
  {
    var values := WindowInValues(code, c.start, c.end, None).0;
    if |values| == |c.outline.argumentMap| then CollectArguments(values, c.outline.argumentMap) else []
  }

  /** The call built for a spotted candidate without `assume` instructions passes exactly
      as many values as the generated method has parameters, each the in-value at the map
      entry that introduced its argument. */
  lemma CallMatchesProto(c: Candidate, code: seq<Instruction>, opts: OutlineOptions, mode: RegisterBudget)
    requires ValidCandidate(c, code, opts, mode)
    requires forall k :: c.start <= k < c.end ==> !code[k].kind.AssumeInstruction?
    ensures var values := WindowInValues(code, c.start, c.end, None).0;
      var m := c.outline.argumentMap;
      |values| == |m| &&
      |CallArguments(c, code)| == |BuildProto(c.outline).parameters| &&
      forall j :: 0 <= j < |m| && m[j] == FreshCount(m[..j]) ==>
        m[j] < |CallArguments(c, code)| && CallArguments(c, code)[m[j]] == values[j]
  {
    WindowInValuesCount(code, c.start, c.end, None);
    CollectArgumentsFollowsMap(WindowInValues(code, c.start, c.end, None).0, c.outline.argumentMap);
  }

  /** The instructions the rewriter removes from `[start, end[`: every non-constant but the
      last, which the call replaces. */
  function ToRemove(code: seq<Instruction>, start: nat, end: nat): (r: seq<nat>)
    requires start <= end <= |code|
    decreases end - start
  {
    if end - start <= 1 then []
    else (if IsConst(code[start]) then [] else [start]) + ToRemove(code, start + 1, end)
  }

  /** The removed indices ascend, and an index is removed exactly when it holds a
      non-constant of the window other than its last instruction. */
  lemma {:induction false} ToRemoveIsExact(code: seq<Instruction>, start: nat, end: nat)
    requires start <= end <= |code|
    ensures var r := ToRemove(code, start, end);
      (forall i :: i in r <==> start <= i < end - 1 && !IsConst(code[i])) &&
      (forall a, b :: 0 <= a < b < |r| ==> r[a] < r[b])
    decreases end - start
  {
    if end - start > 1 {
      ToRemoveIsExact(code, start + 1, end);
      var rest := ToRemove(code, start + 1, end);
      var r := ToRemove(code, start, end);
      if !IsConst(code[start]) {
        assert r == [start] + rest;
        forall a, b | 0 <= a < b < |r| ensures r[a] < r[b] {
          assert r[b] == rest[b - 1];
          assert r[b] in rest;
          if a > 0 {
            assert r[a] == rest[a - 1];
          }
        }
      }
    }
  }
}
