/** Greedy suppression of overlapping detections, class by class. */
module Suppression {
  import opened Overlaps
  import opened SortedKeys

  const MAX_OUTPUT_BBOX_COUNT: nat := 1000

  /** Whether the first detection suppresses the second. */
  type Hits = (Detection, Detection) -> bool

  /** The detections the given one does not suppress. */
  function Survivors(d: Detection, s: seq<Detection>, hits: Hits): (r: seq<Detection>)
    ensures |r| <= |s|
  {
    if s == [] then []
    else if hits(d, s[0]) then Survivors(d, s[1..], hits)
    else [s[0]] + Survivors(d, s[1..], hits)
  }

  /** What greedy suppression keeps: the first, and then what is kept of its survivors. */
  function Greedy(s: seq<Detection>, hits: Hits): seq<Detection>
    decreases |s|
  {
    if s == [] then [] else [s[0]] + Greedy(Survivors(s[0], s[1..], hits), hits)
  }

  predicate Descending(s: seq<Detection>) {
    forall i, j :: 0 <= i < j < |s| ==> s[i].conf >= s[j].conf
  }

  /** No detection suppresses a later one. */
  predicate Separate(s: seq<Detection>, hits: Hits) {
    forall i, j :: 0 <= i < j < |s| ==> !hits(s[i], s[j])
  }

  lemma {:induction false} SurvivorsSurvive(d: Detection, s: seq<Detection>, hits: Hits)
    ensures forall x :: x in Survivors(d, s, hits) <==> x in s && !hits(d, x)
  {
    if s != [] {
      SurvivorsSurvive(d, s[1..], hits);
    }
  }

  lemma {:induction false} SurvivorsDescend(d: Detection, s: seq<Detection>, hits: Hits)
    requires Descending(s)
    ensures Descending(Survivors(d, s, hits))
  {
    if s != [] {
      SurvivorsDescend(d, s[1..], hits);
      SurvivorsSurvive(d, s[1..], hits);
      forall x | x in Survivors(d, s[1..], hits)
        ensures s[0].conf >= x.conf
      {
        var k :| 0 <= k < |s[1..]| && s[1..][k] == x;
        assert s[k + 1] == x;
      }
    }
  }

  lemma {:induction false} SurvivorsConcat(d: Detection, a: seq<Detection>, b: seq<Detection>, hits: Hits)
    ensures Survivors(d, a + b, hits) == Survivors(d, a, hits) + Survivors(d, b, hits)
  {
    if a == [] {
      assert a + b == b;
    } else {
      assert (a + b)[1..] == a[1..] + b;
      SurvivorsConcat(d, a[1..], b, hits);
    }
  }

  /** Erasing a suppressed detection does not change the survivors. */
  lemma SurvivorsErase(d: Detection, s: seq<Detection>, n: nat, hits: Hits)
    requires n < |s| && hits(d, s[n])
    ensures Survivors(d, s[..n] + s[n + 1..], hits) == Survivors(d, s, hits)
  {
    assert s == s[..n] + s[n..];
    SurvivorsConcat(d, s[..n], s[n..], hits);
    SurvivorsConcat(d, s[..n], s[n + 1..], hits);
    assert s[n..][1..] == s[n + 1..];
  }

  lemma {:induction false} AllSurvive(d: Detection, s: seq<Detection>, hits: Hits)
    requires forall x :: x in s ==> !hits(d, x)
    ensures Survivors(d, s, hits) == s
  {
    if s != [] {
      AllSurvive(d, s[1..], hits);
    }
  }

  // ------------------------------------------------- what greedy achieves

  lemma {:induction false} GreedyKeepsSome(s: seq<Detection>, hits: Hits)
    ensures forall x :: x in Greedy(s, hits) ==> x in s
    decreases |s|
  {
    if s != [] {
      GreedyKeepsSome(Survivors(s[0], s[1..], hits), hits);
      SurvivorsSurvive(s[0], s[1..], hits);
    }
  }

  lemma {:induction false} SurvivorsWithin(d: Detection, s: seq<Detection>, hits: Hits)
    ensures multiset(Survivors(d, s, hits)) <= multiset(s)
  {
    if s != [] {
      SurvivorsWithin(d, s[1..], hits);
      assert s == [s[0]] + s[1..];
    }
  }

  /** Each detection is kept at most as often as it came. */
  lemma ConsWithin(x: Detection, g: seq<Detection>, sub: seq<Detection>, rest: seq<Detection>)
    requires multiset(g) <= multiset(sub) <= multiset(rest)
    ensures multiset([x] + g) <= multiset([x] + rest)
  {
  }

  lemma {:induction false} GreedyWithin(s: seq<Detection>, hits: Hits)
    ensures multiset(Greedy(s, hits)) <= multiset(s)
    decreases |s|
  {
    if s != [] {
      var sub := Survivors(s[0], s[1..], hits);
      SurvivorsWithin(s[0], s[1..], hits);
      GreedyWithin(sub, hits);
      ConsWithin(s[0], Greedy(sub, hits), sub, s[1..]);
      assert s == [s[0]] + s[1..];
    }
  }

  lemma {:induction false} GreedyDescends(s: seq<Detection>, hits: Hits)
    requires Descending(s)
    ensures Descending(Greedy(s, hits))
    decreases |s|
  {
    if s != [] {
      var rest := Survivors(s[0], s[1..], hits);
      SurvivorsDescend(s[0], s[1..], hits);
      GreedyDescends(rest, hits);
      GreedyKeepsSome(rest, hits);
      SurvivorsSurvive(s[0], s[1..], hits);
      forall x | x in Greedy(rest, hits)
        ensures s[0].conf >= x.conf
      {
        var k :| 0 <= k < |s[1..]| && s[1..][k] == x;
        assert s[k + 1] == x;
      }
    }
  }

  /** No two kept detections overlap too much. */
  lemma {:induction false} GreedySeparates(s: seq<Detection>, hits: Hits)
    ensures Separate(Greedy(s, hits), hits)
    decreases |s|
  {
    if s != [] {
      var rest := Survivors(s[0], s[1..], hits);
      GreedySeparates(rest, hits);
      GreedyKeepsSome(rest, hits);
      SurvivorsSurvive(s[0], s[1..], hits);
      assert forall x :: x in Greedy(rest, hits) ==> !hits(s[0], x);
    }
  }

  /** The detection suppresses the other and is no less confident. */
  predicate Beats(k: Detection, d: Detection, hits: Hits) {
    hits(k, d) && k.conf >= d.conf
  }

  /** What is discarded is beaten by something kept. */
  lemma {:induction false} GreedyJustifies(s: seq<Detection>, hits: Hits, d: Detection)
    requires Descending(s) && d in s && d !in Greedy(s, hits)
    ensures exists k :: k in Greedy(s, hits) && Beats(k, d, hits)
    decreases |s|
  {
    var rest := Survivors(s[0], s[1..], hits);
    SurvivorsSurvive(s[0], s[1..], hits);
    SurvivorsDescend(s[0], s[1..], hits);
    assert s[0] in Greedy(s, hits);
    if d in rest {
      GreedyJustifies(rest, hits, d);
      var k :| k in Greedy(rest, hits) && Beats(k, d, hits);
      assert k in Greedy(s, hits);
    } else {
      assert Beats(s[0], d, hits);
    }
  }

  /** Nothing is removed from detections that are already separate. */
  lemma {:induction false} GreedyOfSeparate(s: seq<Detection>, hits: Hits)
    requires Separate(s, hits)
    ensures Greedy(s, hits) == s
    decreases |s|
  {
    if s != [] {
      AllSurvive(s[0], s[1..], hits);
      GreedyOfSeparate(s[1..], hits);
    }
  }

  /** Suppressing twice is suppressing once. */
  lemma GreedyTwice(s: seq<Detection>, hits: Hits)
    ensures Greedy(Greedy(s, hits), hits) == Greedy(s, hits)
  {
    GreedySeparates(s, hits);
    GreedyOfSeparate(Greedy(s, hits), hits);
  }

  // ------------------------------------------------------------- in place

  /** Erases from the tail whatever the item suppresses. */
  method EraseSuppressed(item: Detection, rest: seq<Detection>, hits: Hits) returns (dets: seq<Detection>)
    ensures dets == Survivors(item, rest, hits)
  {
    dets := rest;
    var n := 0;
    while n < |dets|
      invariant 0 <= n <= |dets|
      invariant Survivors(item, dets, hits) == Survivors(item, rest, hits)
      invariant forall k :: 0 <= k < n ==> !hits(item, dets[k])
      decreases |dets| - n
    {
      if hits(item, dets[n]) {
        SurvivorsErase(item, dets, n, hits);
        dets := dets[..n] + dets[n + 1..];
      } else {
        n := n + 1;
      }
    }
    AllSurvive(item, dets, hits);
  }

  lemma GreedyStep(head: seq<Detection>, item: Detection, tail: seq<Detection>, hits: Hits)
    ensures head + Greedy([item] + tail, hits) == (head + [item]) + Greedy(Survivors(item, tail, hits), hits)
  {
    assert ([item] + tail)[1..] == tail;
  }

  /** The loop over one class: each remaining detection in turn is kept and erases from those after it. */
  method SuppressClass(sorted: seq<Detection>, hits: Hits, res: seq<Detection>) returns (r: seq<Detection>)
    ensures r == res + Greedy(sorted, hits)
  {
    var dets := sorted;
    r := res;
    var m := 0;
    assert dets[0..] == dets;
    while m < |dets|
      invariant 0 <= m <= |dets|
      invariant r == res + dets[..m]
      invariant Greedy(sorted, hits) == dets[..m] + Greedy(dets[m..], hits)
      decreases |dets| - m
    {
      var item := dets[m];
      r := r + [item];
      ghost var head := dets[..m];
      assert dets[m..] == [item] + dets[m + 1..];
      GreedyStep(head, item, dets[m + 1..], hits);
      var rest := EraseSuppressed(item, dets[m + 1..], hits);
      dets := dets[..m + 1] + rest;
      m := m + 1;
      assert dets[..m] == head + [item] && dets[m..] == rest;
    }
    assert dets[..m] == dets && dets[m..] == [];
  }

  // -------------------------------------------------------- class by class

  /** The detections that are confident enough. */
  function Confident(s: seq<Detection>, threshold: real): seq<Detection> {
    if s == [] then []
    else
      var last := |s| - 1;
      Confident(s[..last], threshold) + (if s[last].conf <= threshold then [] else [s[last]])
  }

  function OfClass(s: seq<Detection>, c: int): seq<Detection> {
    if s == [] then []
    else
      var last := |s| - 1;
      OfClass(s[..last], c) + (if s[last].classId == c then [s[last]] else [])
  }

  lemma {:induction false} ConfidentHas(s: seq<Detection>, threshold: real)
    ensures forall x :: x in Confident(s, threshold) <==> x in s && x.conf > threshold
  {
    if s != [] {
      ConfidentHas(s[..|s| - 1], threshold);
    }
  }

  /** Every detection is kept as often as it occurs, if it is confident enough, and otherwise never. */
  lemma {:induction false} ConfidentCounts(s: seq<Detection>, threshold: real, x: Detection)
    ensures multiset(Confident(s, threshold))[x] == if x.conf > threshold then multiset(s)[x] else 0
  {
    if s != [] {
      var last := |s| - 1;
      ConfidentCounts(s[..last], threshold, x);
      assert s == s[..last] + [s[last]];
    }
  }

  lemma {:induction false} AllConfident(s: seq<Detection>, threshold: real)
    requires forall k :: 0 <= k < |s| ==> s[k].conf > threshold
    ensures Confident(s, threshold) == s
  {
    if s != [] {
      AllConfident(s[..|s| - 1], threshold);
    }
  }

  lemma {:induction false} OfClassHas(s: seq<Detection>, c: int)
    ensures forall x :: x in OfClass(s, c) <==> x in s && x.classId == c
  {
    if s != [] {
      OfClassHas(s[..|s| - 1], c);
    }
  }

  lemma OfClassGrows(s: seq<Detection>, d: Detection, c: int)
    ensures OfClass(s + [d], c) == OfClass(s, c) + (if d.classId == c then [d] else [])
  {
    assert (s + [d])[..|s|] == s;
  }

  /** The detections of the classes given, as a multiset. */
  function OfClasses(s: seq<Detection>, cs: set<int>): multiset<Detection> {
    if s == [] then multiset{}
    else
      var last := |s| - 1;
      OfClasses(s[..last], cs) + (if s[last].classId in cs then multiset{s[last]} else multiset{})
  }

  lemma {:induction false} OneMoreClass(s: seq<Detection>, cs: set<int>, c: int)
    requires c !in cs
    ensures OfClasses(s, cs + {c}) == OfClasses(s, cs) + multiset(OfClass(s, c))
  {
    if s != [] {
      OneMoreClass(s[..|s| - 1], cs, c);
    }
  }

  lemma {:induction false} EveryClass(s: seq<Detection>, cs: set<int>)
    requires forall x :: x in s ==> x.classId in cs
    ensures OfClasses(s, cs) == multiset(s)
  {
    if s != [] {
      EveryClass(s[..|s| - 1], cs);
      assert s == s[..|s| - 1] + [s[|s| - 1]];
    }
  }

  /** The groups by class, as the map holds them. */
  predicate Grouped(groups: map<int, seq<Detection>>, s: seq<Detection>) {
    && (forall c :: c in groups ==> groups[c] == OfClass(s, c))
    && (forall x :: x in s ==> x.classId in groups)
  }

  /** The keys of a map, in order. */
  ghost predicate Keys(keys: seq<int>, groups: map<int, seq<Detection>>) {
    && Ascending(keys)
    && (forall k :: 0 <= k < |keys| ==> keys[k] in groups)
    && (forall c :: c in groups ==> c in keys)
  }

  lemma ConfidentGrows(s: seq<Detection>, i: nat, threshold: real)
    requires i < |s|
    ensures Confident(s[..i + 1], threshold) == Confident(s[..i], threshold) + (if s[i].conf <= threshold then [] else [s[i]])
  {
    assert s[..i + 1][..i] == s[..i] && s[..i + 1][i] == s[i];
  }

  method Collect(raw: seq<Detection>, count: int, threshold: real)
    returns (groups: map<int, seq<Detection>>, keys: seq<int>, ghost kept: seq<Detection>)
    ensures kept == Confident(Considered(raw, count), threshold) && Grouped(groups, kept) && Keys(keys, groups)
  {
    groups := map[];
    keys := [];
    kept := [];
    ghost var all := Considered(raw, count);
    var i := 0;
    while i < |raw| && i < count && i < MAX_OUTPUT_BBOX_COUNT
      invariant 0 <= i <= |all| && kept == Confident(all[..i], threshold)
      invariant Grouped(groups, kept) && Keys(keys, groups)
    {
      var d := raw[i];
      ConfidentGrows(all, i, threshold);
      if d.conf > threshold {
        groups, keys := AddDetection(groups, keys, kept, d);
        kept := kept + [d];
      }
      i := i + 1;
    }
    assert all[..i] == all;
  }

  /** Adds a detection to the group of its class, making the group if there is none. */
  method AddDetection(groups: map<int, seq<Detection>>, keys: seq<int>, ghost kept: seq<Detection>, d: Detection)
    returns (more: map<int, seq<Detection>>, moreKeys: seq<int>)
    requires Grouped(groups, kept) && Keys(keys, groups)
    ensures Grouped(more, kept + [d]) && Keys(moreKeys, more)
  {
    AddToGroup(groups, kept, d);
    WithKeyHas(keys, d.classId);
    var group := if d.classId in groups then groups[d.classId] else [];
    more := groups[d.classId := group + [d]];
    moreKeys := WithKey(keys, d.classId);
    forall k | 0 <= k < |moreKeys|
      ensures moreKeys[k] in more
    {
      assert moreKeys[k] in moreKeys;
    }
  }

  lemma AddToGroup(groups: map<int, seq<Detection>>, s: seq<Detection>, d: Detection)
    requires Grouped(groups, s)
    ensures var group := if d.classId in groups then groups[d.classId] else [];
      Grouped(groups[d.classId := group + [d]], s + [d])
  {
    var group := if d.classId in groups then groups[d.classId] else [];
    if d.classId !in groups {
      NoneOfClass(s, d.classId);
    }
    var more := groups[d.classId := group + [d]];
    forall c | c in more
      ensures more[c] == OfClass(s + [d], c)
    {
      OfClassGrows(s, d, c);
    }
  }

  lemma {:induction false} NoneOfClass(s: seq<Detection>, c: int)
    requires forall x :: x in s ==> x.classId != c
    ensures OfClass(s, c) == []
  {
    if s != [] {
      NoneOfClass(s[..|s| - 1], c);
    }
  }

  /** At most as many detections as are announced, and as there is room for. */
  function Considered(raw: seq<Detection>, count: int): seq<Detection> {
    var n := if count < 0 then 0 else if count > MAX_OUTPUT_BBOX_COUNT then MAX_OUTPUT_BBOX_COUNT else count;
    raw[..if n > |raw| then |raw| else n]
  }

  function Inserted(s: seq<Detection>, d: Detection): seq<Detection> {
    if s == [] || s[0].conf < d.conf then [d] + s else [s[0]] + Inserted(s[1..], d)
  }

  /** One order by falling confidence. */
  function ByConfidence(s: seq<Detection>): seq<Detection> {
    if s == [] then [] else Inserted(ByConfidence(s[1..]), s[0])
  }

  lemma {:induction false} InsertedHas(s: seq<Detection>, d: Detection)
    ensures multiset(Inserted(s, d)) == multiset(s) + multiset{d}
  {
    if s != [] && s[0].conf >= d.conf {
      InsertedHas(s[1..], d);
      assert s == [s[0]] + s[1..];
    }
  }

  lemma Descends(d: Detection, s: seq<Detection>)
    requires Descending(s) && forall x :: x in multiset(s) ==> d.conf >= x.conf
    ensures Descending([d] + s)
  {
    forall i, j | 0 <= i < j < |[d] + s|
      ensures ([d] + s)[i].conf >= ([d] + s)[j].conf
    {
      assert ([d] + s)[j] == s[j - 1] && s[j - 1] in multiset(s);
    }
  }

  lemma {:induction false} InsertedDescends(s: seq<Detection>, d: Detection)
    requires Descending(s)
    ensures Descending(Inserted(s, d))
  {
    if s == [] || s[0].conf < d.conf {
      Descends(d, s);
    } else {
      InsertedDescends(s[1..], d);
      InsertedHas(s[1..], d);
      Descends(s[0], Inserted(s[1..], d));
    }
  }

  lemma {:induction false} ByConfidenceSorts(s: seq<Detection>)
    ensures Descending(ByConfidence(s)) && multiset(ByConfidence(s)) == multiset(s)
  {
    if s != [] {
      ByConfidenceSorts(s[1..]);
      InsertedHas(ByConfidence(s[1..]), s[0]);
      InsertedDescends(ByConfidence(s[1..]), s[0]);
      assert s == [s[0]] + s[1..];
    }
  }

  /** Sorting promises an order by falling confidence; which one, among equals, is not told. */
  method Sort(s: seq<Detection>) returns (sorted: seq<Detection>)
    ensures Descending(sorted) && multiset(sorted) == multiset(s)
  {
    sorted := ByConfidence(s);
    ByConfidenceSorts(s);
  }

  // --------------------------------------------------------------- results

  /** Classes in order; within a class by falling confidence, none suppressing a later one. */
  predicate Ordered(res: seq<Detection>, hits: Hits) {
    forall i, j :: 0 <= i < j < |res| ==> InOrder(res[i], res[j], hits)
  }

  predicate InOrder(a: Detection, b: Detection, hits: Hits) {
    a.classId < b.classId || (a.classId == b.classId && a.conf >= b.conf && !hits(a, b))
  }

  /** Kept, or beaten by one of its class that is. */
  predicate Settled(d: Detection, res: seq<Detection>, hits: Hits) {
    d in res || exists k :: k in res && k.classId == d.classId && Beats(k, d, hits)
  }

  /** No two detections of a class overlap too much, whatever their order. */
  ghost predicate Disjoint(m: multiset<Detection>, hits: Hits) {
    forall x, y :: x in m && y in m && x.classId == y.classId && (x != y || m[x] >= 2) ==> !hits(x, y)
  }

  lemma {:induction false} TwiceMeansTwoPlaces(s: seq<Detection>, x: Detection) returns (i: nat, j: nat)
    requires multiset(s)[x] >= 2
    ensures i < j < |s| && s[i] == s[j] == x
  {
    var last := |s| - 1;
    assert s == s[..last] + [s[last]];
    if s[last] == x {
      j := last;
      assert x in multiset(s[..last]);
      i :| 0 <= i < last && s[..last][i] == x;
    } else {
      i, j := TwiceMeansTwoPlaces(s[..last], x);
    }
  }

  lemma {:induction false} TwoPlacesMeanTwice(s: seq<Detection>, i: nat, j: nat)
    requires i < j < |s| && s[i] == s[j]
    ensures multiset(s)[s[i]] >= 2
  {
    assert s == s[..j] + s[j..];
    assert s[..j][i] == s[i] && s[j..][0] == s[i];
    assert s[i] in s[..j] && s[i] in s[j..];
  }

  lemma DisjointSeparates(s: seq<Detection>, c: int, hits: Hits)
    requires Disjoint(multiset(s), hits) && forall x :: x in s ==> x.classId == c
    ensures Separate(s, hits)
  {
    forall i, j | 0 <= i < j < |s|
      ensures !hits(s[i], s[j])
    {
      assert s[i] in multiset(s) && s[j] in multiset(s);
      if s[i] == s[j] {
        TwoPlacesMeanTwice(s, i, j);
      }
    }
  }

  /** For a symmetric test, what is in order is disjoint. */
  lemma OrderedIsDisjoint(res: seq<Detection>, hits: Hits)
    requires Ordered(res, hits) && forall a, b :: hits(a, b) == hits(b, a)
    ensures Disjoint(multiset(res), hits)
  {
    var m := multiset(res);
    forall x, y | x in m && y in m && x.classId == y.classId && (x != y || m[x] >= 2)
      ensures !hits(x, y)
    {
      var i, j;
      if x == y {
        i, j := TwiceMeansTwoPlaces(res, x);
      } else {
        i :| 0 <= i < |res| && res[i] == x;
        j :| 0 <= j < |res| && res[j] == y;
      }
      assert if i < j then InOrder(res[i], res[j], hits) else InOrder(res[j], res[i], hits);
    }
  }

  // ------------------------------------------------------------ all classes

  /** What holds once the classes in `done` have been dealt with. */
  ghost predicate Done(res: seq<Detection>, kept: seq<Detection>, done: set<int>, hits: Hits) {
    && Ordered(res, hits)
    && (forall x :: x in res ==> x in kept && x.classId in done)
    && (forall x :: x in kept && x.classId in done ==> Settled(x, res, hits))
    && multiset(res) <= OfClasses(kept, done)
    && (Disjoint(multiset(kept), hits) ==> multiset(res) == OfClasses(kept, done))
  }

  lemma DisjointClass(kept: seq<Detection>, c: int, hits: Hits)
    requires Disjoint(multiset(kept), hits)
    ensures Disjoint(multiset(OfClass(kept, c)), hits)
  {
    var s := OfClass(kept, c);
    OfClassHas(kept, c);
    forall x: Detection, y: Detection | x in multiset(s) && y in multiset(s) && x.classId == y.classId && (x != y || multiset(s)[x] >= 2)
      ensures !hits(x, y)
    {
      assert x in s && y in s;
      OfClassCounts(kept, c, x);
    }
  }

  lemma {:induction false} OfClassCounts(s: seq<Detection>, c: int, x: Detection)
    ensures multiset(OfClass(s, c))[x] <= multiset(s)[x]
  {
    if s != [] {
      OfClassCounts(s[..|s| - 1], c, x);
      assert s == s[..|s| - 1] + [s[|s| - 1]];
    }
  }

  lemma GroupKept(sorted: seq<Detection>, c: int, hits: Hits, g: seq<Detection>)
    requires Descending(sorted) && (forall x :: x in sorted ==> x.classId == c) && g == Greedy(sorted, hits)
    ensures Ordered(g, hits) && multiset(g) <= multiset(sorted) && forall x :: x in g ==> x in sorted
    ensures forall x :: x in sorted ==> Settled(x, g, hits)
    ensures Disjoint(multiset(sorted), hits) ==> g == sorted
  {
    GreedyKeepsSome(sorted, hits);
    GreedyWithin(sorted, hits);
    GreedyDescends(sorted, hits);
    GreedySeparates(sorted, hits);
    forall i, j | 0 <= i < j < |g|
      ensures InOrder(g[i], g[j], hits)
    {
      assert g[i] in g && g[j] in g;
    }
    forall x | x in sorted
      ensures Settled(x, g, hits)
    {
      if x !in g {
        GreedyJustifies(sorted, hits, x);
        var k :| k in g && Beats(k, x, hits);
        assert k.classId == x.classId;
      }
    }
    if Disjoint(multiset(sorted), hits) {
      DisjointSeparates(sorted, c, hits);
      GreedyOfSeparate(sorted, hits);
    }
  }

  lemma SettledStays(x: Detection, a: seq<Detection>, b: seq<Detection>, hits: Hits)
    requires Settled(x, a, hits) || Settled(x, b, hits)
    ensures Settled(x, a + b, hits)
  {
    if x !in a + b {
      if Settled(x, a, hits) {
        var k :| k in a && k.classId == x.classId && Beats(k, x, hits);
        assert k in a + b;
      } else {
        var k :| k in b && k.classId == x.classId && Beats(k, x, hits);
        assert k in a + b;
      }
    }
  }

  lemma ClassDone(res: seq<Detection>, kept: seq<Detection>, done: set<int>, c: int, sorted: seq<Detection>, hits: Hits)
    requires Done(res, kept, done, hits) && c !in done && (forall d :: d in done ==> d < c)
    requires Descending(sorted) && multiset(sorted) == multiset(OfClass(kept, c))
    ensures Done(res + Greedy(sorted, hits), kept, done + {c}, hits)
  {
    var g := Greedy(sorted, hits);
    OfClassHas(kept, c);
    OneMoreClass(kept, done, c);
    forall x
      ensures x in sorted <==> x in kept && x.classId == c
    {
      assert x in multiset(sorted) <==> x in multiset(OfClass(kept, c));
    }
    GroupKept(sorted, c, hits, g);
    forall i, j | 0 <= i < j < |res + g|
      ensures InOrder((res + g)[i], (res + g)[j], hits)
    {
      if j < |res| {
        assert InOrder(res[i], res[j], hits);
      } else if i >= |res| {
        assert InOrder(g[i - |res|], g[j - |res|], hits);
      } else {
        assert res[i] in res && g[j - |res|] in g;
      }
    }
    forall x | x in kept && x.classId in done + {c}
      ensures Settled(x, res + g, hits)
    {
      SettledStays(x, res, g, hits);
    }
    if Disjoint(multiset(kept), hits) {
      DisjointClass(kept, c, hits);
    }
  }

  function KeySet(keys: seq<int>): set<int> {
    if keys == [] then {} else KeySet(keys[..|keys| - 1]) + {keys[|keys| - 1]}
  }

  lemma {:induction false} KeySetHas(keys: seq<int>)
    ensures forall c :: c in KeySet(keys) <==> c in keys
  {
    if keys != [] {
      KeySetHas(keys[..|keys| - 1]);
      assert keys == keys[..|keys| - 1] + [keys[|keys| - 1]];
    }
  }

  lemma KeyDone(res: seq<Detection>, keys: seq<int>, i: nat, groups: map<int, seq<Detection>>, kept: seq<Detection>,
                sorted: seq<Detection>, hits: Hits)
    requires Ascending(keys) && i < |keys| && keys[i] in groups && Grouped(groups, kept)
    requires Done(res, kept, KeySet(keys[..i]), hits)
    requires Descending(sorted) && multiset(sorted) == multiset(groups[keys[i]])
    ensures Done(res + Greedy(sorted, hits), kept, KeySet(keys[..i + 1]), hits)
  {
    KeySetHas(keys[..i]);
    assert keys[..i + 1][..i] == keys[..i];
    ClassDone(res, kept, KeySet(keys[..i]), keys[i], sorted, hits);
  }

  /** Class after class, in the order of the map. */
  method SuppressGroups(keys: seq<int>, groups: map<int, seq<Detection>>, ghost kept: seq<Detection>, hits: Hits)
    returns (res: seq<Detection>)
    requires Ascending(keys) && Grouped(groups, kept) && forall k :: 0 <= k < |keys| ==> keys[k] in groups
    ensures Done(res, kept, KeySet(keys), hits)
  {
    res := [];
    NothingDone(kept, hits);
    for i := 0 to |keys|
      invariant Done(res, kept, KeySet(keys[..i]), hits)
    {
      var sorted := Sort(groups[keys[i]]);
      KeyDone(res, keys, i, groups, kept, sorted, hits);
      res := SuppressClass(sorted, hits, res);
    }
    assert keys[..|keys|] == keys;
  }

  /**
   * What is left of the detections: classes in order, confidence descending within a class, no two of a
   * class overlapping; whatever is gone overlaps one of its class that is as confident and stays.
   */
  ghost predicate Suppressed(kept: seq<Detection>, res: seq<Detection>, hits: Hits) {
    && Ordered(res, hits)
    && multiset(res) <= multiset(kept)
    && (forall x :: x in kept ==> Settled(x, res, hits))
    && (Disjoint(multiset(kept), hits) ==> multiset(res) == multiset(kept))
  }

  /** All classes in turn, in the order of the map. */
  method Suppress(raw: seq<Detection>, count: int, threshold: real, hits: Hits) returns (res: seq<Detection>)
    ensures Suppressed(Confident(Considered(raw, count), threshold), res, hits)
  {
    var groups, keys, kept := Collect(raw, count, threshold);
    res := SuppressGroups(keys, groups, kept, hits);
    KeySetHas(keys);
    EveryClass(kept, KeySet(keys));
  }

  lemma {:induction false} NothingDone(kept: seq<Detection>, hits: Hits)
    ensures Done([], kept, {}, hits)
  {
    NoClasses(kept);
  }

  lemma {:induction false} NoClasses(s: seq<Detection>)
    ensures OfClasses(s, {}) == multiset{}
  {
    if s != [] {
      NoClasses(s[..|s| - 1]);
    }
  }

  /** Two detections overlap by more than the threshold. */
  function Overlapping(threshold: real): Hits {
    (a: Detection, b: Detection) => Iou(a.box, b.box) > threshold
  }

  /** The server's test of two detections: the share of the area they cover that they have in common. */
  lemma OverlappingExactly(a: Detection, b: Detection, inter: real, union: real, threshold: real)
    requires Positive(a.box) && Positive(b.box) && IsIntersection(a.box, b.box, inter)
    requires union == Area(a.box) + Area(b.box) - inter
    ensures Overlapping(threshold)(a, b) <==> inter > threshold * union
  {
    OverlapsExactly(a.box, b.box, inter, union, threshold);
  }

  /** Non-maximum suppression as the server calls it. */
  method Nms(output: seq<Detection>, count: int, confThreshold: real, nmsThreshold: real) returns (res: seq<Detection>)
    ensures Suppressed(Confident(Considered(output, count), confThreshold), res, Overlapping(nmsThreshold))
  {
    res := Suppress(output, count, confThreshold, Overlapping(nmsThreshold));
  }

  /** Suppression applied to its own result removes nothing. */
  method NmsTwice(output: seq<Detection>, count: int, confThreshold: real, nmsThreshold: real)
    returns (once: seq<Detection>, twice: seq<Detection>)
    ensures Suppressed(Confident(Considered(output, count), confThreshold), once, Overlapping(nmsThreshold))
    ensures multiset(twice) == multiset(once)
  {
    var hits := Overlapping(nmsThreshold);
    ghost var kept := Confident(Considered(output, count), confThreshold);
    once := Nms(output, count, confThreshold, nmsThreshold);
    twice := Nms(once, |once|, confThreshold, nmsThreshold);
    forall a, b
      ensures hits(a, b) == hits(b, a)
    {
      IouSymmetric(a.box, b.box);
    }
    OrderedIsDisjoint(once, hits);
    ConfidentHas(Considered(output, count), confThreshold);
    forall k | 0 <= k < |once|
      ensures once[k].conf > confThreshold
    {
      assert once[k] in multiset(once) && once[k] in multiset(kept);
    }
    AllConfident(once, confThreshold);
    SubMultiset(multiset(once), multiset(kept));
    ConfidentShorter(Considered(output, count), confThreshold);
    assert Considered(once, |once|) == once;
  }

  lemma SubMultiset(a: multiset<Detection>, b: multiset<Detection>)
    requires a <= b
    ensures |a| <= |b|
  {
    assert b == a + (b - a);
  }

  lemma {:induction false} ConfidentShorter(s: seq<Detection>, threshold: real)
    ensures |Confident(s, threshold)| <= |s|
  {
    if s != [] {
      ConfidentShorter(s[..|s| - 1], threshold);
    }
  }
}
