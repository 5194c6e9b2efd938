/**
 * Edits over an immutable page: half-open byte spans to replace, sorted and
 * merged where they overlap.
 */
module EditMerge {

  datatype Span = Span(start: int, end: int)

  /** One span to replace with the placeholder, or to remove outright when drop is set. */
  datatype Edit = Edit(start: int, end: int, drop: bool)

  predicate NonEmpty(e: Edit) { 0 <= e.start < e.end }

  predicate Proper(es: seq<Edit>) { forall i | 0 <= i < |es| :: NonEmpty(es[i]) }

  predicate Within(e: Edit, g: Edit) { g.start <= e.start && e.end <= g.end }

  /** e reaches across position c: both c - 1 and c belong to it. */
  predicate Crosses(e: Edit, c: int) { e.start < c < e.end }

  predicate Crossed(es: seq<Edit>, c: int) { exists i :: 0 <= i < |es| && Crosses(es[i], c) }

  predicate Covered(es: seq<Edit>, p: int) { exists i :: 0 <= i < |es| && es[i].start <= p < es[i].end }

  /** Sorted and disjoint; neighbours may touch. */
  predicate Apart(out: seq<Edit>) {
    forall i, j | 0 <= i < j < |out| :: out[i].end <= out[j].start
  }

  predicate SortedByStart(es: seq<Edit>) {
    forall i, j | 0 <= i < j < |es| :: es[i].start <= es[j].start
  }

  /** g begins where an edit of es begins, and no cut through it misses every edit. */
  predicate Connected(es: seq<Edit>, g: Edit) {
    && (exists i :: 0 <= i < |es| && es[i].start == g.start && Within(es[i], g))
    && (forall c | g.start < c < g.end :: Crossed(es, c))
  }

  predicate DropsOnlyDrops(es: seq<Edit>, g: Edit) {
    g.drop <==> forall i | 0 <= i < |es| && Within(es[i], g) :: es[i].drop
  }

  predicate Inside(e: Edit, out: seq<Edit>) { exists k :: 0 <= k < |out| && Within(e, out[k]) }

  /**
   * `out` is what merging overlapping edits means: disjoint groups in order, each
   * edit in a group, each group held together by overlapping edits (edits that
   * only touch stay separate), dropped only when every edit in it is.
   */
  predicate IsMerge(es: seq<Edit>, out: seq<Edit>) {
    && Proper(out) && Apart(out)
    && (forall i | 0 <= i < |es| :: Inside(es[i], out))
    && (forall k | 0 <= k < |out| :: Connected(es, out[k]))
    && (forall k | 0 <= k < |out| :: DropsOnlyDrops(es, out[k]))
  }

  // ---- sorting ----------------------------------------------------------------------

  /** Sorts by start. Edits that start together may come out in any order. */
  method SortEdits(es: seq<Edit>) returns (sorted: seq<Edit>)
    ensures multiset(sorted) == multiset(es) && SortedByStart(sorted)
  {
    sorted := [];
    for i := 0 to |es|
      invariant multiset(sorted) == multiset(es[..i]) && SortedByStart(sorted)
    {
      assert es[..i + 1] == es[..i] + [es[i]];
      InsertSorts(sorted, es[i]);
      sorted := InsertEdit(sorted, es[i]);
    }
    assert es[..|es|] == es;
  }

  function InsertEdit(s: seq<Edit>, e: Edit): seq<Edit> {
    if s == [] || s[|s| - 1].start <= e.start then s + [e] else InsertEdit(s[..|s| - 1], e) + [s[|s| - 1]]
  }

  lemma {:induction false} InsertSorts(s: seq<Edit>, e: Edit)
    requires SortedByStart(s)
    ensures multiset(InsertEdit(s, e)) == multiset(s) + multiset{e} && SortedByStart(InsertEdit(s, e))
    decreases |s|
  {
    if s != [] && s[|s| - 1].start > e.start {
      var n := |s| - 1;
      var head := InsertEdit(s[..n], e);
      InsertSorts(s[..n], e);
      assert s == s[..n] + [s[n]];
      InsertedBelow(s[..n], e, head, s[n].start);
    }
  }

  lemma InsertedBelow(s: seq<Edit>, e: Edit, head: seq<Edit>, x: int)
    requires multiset(head) == multiset(s) + multiset{e}
    requires e.start <= x && forall i | 0 <= i < |s| :: s[i].start <= x
    ensures forall i | 0 <= i < |head| :: head[i].start <= x
  {
    forall i | 0 <= i < |head| ensures head[i].start <= x {
      assert head[i] in multiset(head);
      assert head[i] in s || head[i] == e;
    }
  }

  // ---- merging ------------------------------------------------------------------------

  /** Add one edit that starts no earlier than those merged so far. */
  function Extend(out: seq<Edit>, e: Edit): (r: seq<Edit>)
    requires out != []
    ensures r != [] && |r| <= |out| + 1
  {
    var cur := out[|out| - 1];
    if e.start < cur.end
    then out[|out| - 1 := Edit(cur.start, if e.end > cur.end then e.end else cur.end, cur.drop && e.drop)]
    else out + [e]
  }

  function MergeSorted(s: seq<Edit>): (r: seq<Edit>)
    requires s != []
    ensures 0 < |r| <= |s|
    decreases |s|
  {
    if |s| == 1 then s else Extend(MergeSorted(s[..|s| - 1]), s[|s| - 1])
  }

  lemma FirstMerged(s: seq<Edit>)
    requires s != []
    ensures MergeSorted(s[..1]) == s[..1]
  {}

  lemma NextMerged(s: seq<Edit>, i: nat)
    requires 0 < i < |s|
    ensures var out, e := MergeSorted(s[..i]), s[i];
      && out != []
      && MergeSorted(s[..i + 1]) ==
           if e.start < out[|out| - 1].end
           then out[|out| - 1 := Edit(out[|out| - 1].start,
                                      if e.end > out[|out| - 1].end then e.end else out[|out| - 1].end,
                                      out[|out| - 1].drop && e.drop)]
           else out + [e]
  {
    assert s[..i + 1][..i] == s[..i];
  }

  method Store(a: array<Edit>, s: seq<Edit>)
    requires |s| <= a.Length
    modifies a
    ensures a[..|s|] == s
  {
    for k := 0 to |s|
      invariant a[..k] == s[..k]
    {
      a[k] := s[k];
    }
  }

  /** Sorts a[..n] and merges it in place; the groups are a[..m]. */
  method MergeEdits(a: array<Edit>, n: nat) returns (m: nat)
    requires 0 < n <= a.Length && Proper(a[..n])
    modifies a
    ensures 0 < m <= n && IsMerge(old(a[..n]), a[..m])
  {
    hide *;
    ghost var was := a[..n];
    var s := SortEdits(a[..n]);
    SameEdits(was, s);
    Store(a, s);
    m := MergeForward(a, n, s);
    MergeSortedIsMerge(s);
    MergeOfSame(s, was, a[..m]);
  }

  method MergeForward(a: array<Edit>, n: nat, ghost s: seq<Edit>) returns (m: nat)
    requires 0 < n == |s| <= a.Length && a[..n] == s
    modifies a
    ensures 0 < m <= n && a[..m] == MergeSorted(s)
  {
    hide *;
    FirstMerged(s);
    m := 1;
    for i := 1 to n
      invariant 1 <= m <= i
      invariant a[..m] == MergeSorted(s[..i])
      invariant a[i..n] == s[i..]
    {
      var e, cur := a[i], a[m - 1];
      assert e == a[i..n][0];
      NextMerged(s, i);
      if e.start < cur.end {
        a[m - 1] := Edit(cur.start, if e.end > cur.end then e.end else cur.end, cur.drop && e.drop);
      } else {
        a[m] := e;
        m := m + 1;
      }
      assert s[i..][1..] == s[i + 1..];
    }
    assert s[..n] == s;
  }

  // ---- the groups are the merge -----------------------------------------------------------

  predicate AllIn(s: seq<Edit>, t: seq<Edit>) { forall i | 0 <= i < |s| :: s[i] in t }

  /** The same edits, in any order. */
  predicate SameElements(s: seq<Edit>, t: seq<Edit>) { AllIn(s, t) && AllIn(t, s) }

  lemma SameEdits(was: seq<Edit>, s: seq<Edit>)
    requires multiset(s) == multiset(was)
    ensures |s| == |was| && SameElements(s, was)
    ensures Proper(was) ==> Proper(s)
  {
    assert |multiset(s)| == |s| && |multiset(was)| == |was|;
    forall i | 0 <= i < |s| ensures s[i] in was { assert s[i] in multiset(s); }
    forall i | 0 <= i < |was| ensures was[i] in s { assert was[i] in multiset(was); }
    if Proper(was) {
      forall i | 0 <= i < |s| ensures NonEmpty(s[i]) { assert s[i] in was; }
    }
  }

  /** Which edits there are decides the merge, not their order. */
  lemma MergeOfSame(s: seq<Edit>, t: seq<Edit>, out: seq<Edit>)
    requires SameElements(s, t) && IsMerge(s, out)
    ensures IsMerge(t, out)
  {
    hide Connected, DropsOnlyDrops, Inside, Proper, Apart;
    forall i | 0 <= i < |t| ensures Inside(t[i], out) { assert t[i] in s; }
    forall k | 0 <= k < |out| ensures Connected(t, out[k]) && DropsOnlyDrops(t, out[k]) {
      ConnectedOfSame(s, t, out[k]);
      DropOfSame(s, t, out[k]);
    }
  }

  lemma ConnectedOfSame(s: seq<Edit>, t: seq<Edit>, g: Edit)
    requires SameElements(s, t) && Connected(s, g)
    ensures Connected(t, g)
  {
    var i :| 0 <= i < |s| && s[i].start == g.start && Within(s[i], g);
    assert s[i] in t;
    forall c | g.start < c < g.end ensures Crossed(t, c) {
      assert Crossed(s, c);
      var j :| 0 <= j < |s| && Crosses(s[j], c);
      assert s[j] in t;
    }
  }

  lemma DropOfSame(s: seq<Edit>, t: seq<Edit>, g: Edit)
    requires SameElements(s, t) && DropsOnlyDrops(s, g)
    ensures DropsOnlyDrops(t, g)
  {
    if g.drop {
      forall i | 0 <= i < |t| && Within(t[i], g) ensures t[i].drop { assert t[i] in s; }
    } else {
      var i :| 0 <= i < |s| && Within(s[i], g) && !s[i].drop;
      assert s[i] in t;
    }
  }

  lemma {:induction false} MergeSortedIsMerge(s: seq<Edit>)
    requires s != [] && Proper(s) && SortedByStart(s)
    ensures IsMerge(s, MergeSorted(s))
    decreases |s|
  {
    hide IsMerge, Extend;
    if |s| == 1 {
      OneIsMerge(s);
    } else {
      var n := |s| - 1;
      MergeSortedIsMerge(s[..n]);
      assert s == s[..n] + [s[n]];
      ExtendKeepsMerge(s[..n], MergeSorted(s[..n]), s[n]);
    }
  }

  lemma OneIsMerge(s: seq<Edit>)
    requires |s| == 1 && Proper(s)
    ensures IsMerge(s, s)
  {
    hide Connected, DropsOnlyDrops, Inside;
    InsideItself(s, 0);
    OwnConnected(s, 0);
    OwnDrop(s, 0);
  }

  lemma ExtendKeepsMerge(s: seq<Edit>, out: seq<Edit>, e: Edit)
    requires Proper(s) && IsMerge(s, out) && out != [] && NonEmpty(e)
    requires forall i | 0 <= i < |s| :: s[i].start <= e.start
    ensures IsMerge(s + [e], Extend(out, e))
  {
    hide IsMerge, NonEmpty;
    var cur := out[|out| - 1];
    if e.start < cur.end {
      GrowLast(s, out, e);
    } else {
      AppendGroup(s, out, e);
    }
  }

  lemma GroupStartsBefore(s: seq<Edit>, out: seq<Edit>, x: int, k: nat)
    requires IsMerge(s, out) && k < |out|
    requires forall i | 0 <= i < |s| :: s[i].start <= x
    ensures out[k].start <= x
  {
    hide Inside, DropsOnlyDrops, Proper, Apart, Crossed;
    assert Connected(s, out[k]);
  }

  /** Edits of earlier groups end where the last group starts. */
  lemma ConnectedStays(s: seq<Edit>, e: Edit, g: Edit)
    requires Connected(s, g)
    ensures Connected(s + [e], g)
  {
    var t := s + [e];
    var i :| 0 <= i < |s| && s[i].start == g.start && Within(s[i], g);
    assert t[i] == s[i];
    forall c | g.start < c < g.end ensures Crossed(t, c) {
      assert Crossed(s, c);
      var j :| 0 <= j < |s| && Crosses(s[j], c);
      assert t[j] == s[j];
    }
  }

  lemma DropStays(s: seq<Edit>, e: Edit, g: Edit)
    requires DropsOnlyDrops(s, g) && !Within(e, g)
    ensures DropsOnlyDrops(s + [e], g)
  {
    var t := s + [e];
    forall i | 0 <= i < |s| ensures t[i] == s[i] {}
    if !g.drop {
      var i :| 0 <= i < |s| && Within(s[i], g) && !s[i].drop;
      assert t[i] == s[i];
    }
  }

  lemma AppendGroup(s: seq<Edit>, out: seq<Edit>, e: Edit)
    requires Proper(s) && IsMerge(s, out) && out != [] && NonEmpty(e) && out[|out| - 1].end <= e.start
    ensures IsMerge(s + [e], out + [e])
  {
    hide Inside, Connected, DropsOnlyDrops;
    var t, r := s + [e], out + [e];
    assert Proper(r) && Apart(r) by { hide NonEmpty; AppendApart(out, e); }
    forall i | 0 <= i < |t| ensures Inside(t[i], r) {
      if i < |s| { InsideStays(s[i], out, e); } else { InsideItself(r, |out|); }
    }
    forall k | 0 <= k < |r| ensures Connected(t, r[k]) && DropsOnlyDrops(t, r[k]) {
      if k < |out| {
        ConnectedStays(s, e, out[k]);
        DropStays(s, e, out[k]);
      } else {
        NewGroup(s, out, e);
      }
    }
  }

  lemma AppendApart(out: seq<Edit>, e: Edit)
    requires Proper(out) && Apart(out) && out != [] && NonEmpty(e) && out[|out| - 1].end <= e.start
    ensures Proper(out + [e]) && Apart(out + [e])
  {
    var n := |out| - 1;
    forall i | 0 <= i < |out| ensures out[i].end <= e.start {
      assert NonEmpty(out[n]);
      if i < n { assert out[i].end <= out[n].start; }
    }
  }

  lemma InsideStays(x: Edit, out: seq<Edit>, e: Edit)
    requires Inside(x, out)
    ensures Inside(x, out + [e])
  {
    var k :| 0 <= k < |out| && Within(x, out[k]);
    assert (out + [e])[k] == out[k];
  }

  lemma InsideItself(out: seq<Edit>, k: nat)
    requires k < |out|
    ensures Inside(out[k], out)
  {
    assert Within(out[k], out[k]);
  }

  /** An edit apart from everything before it is a group of its own. */
  lemma NewGroup(s: seq<Edit>, out: seq<Edit>, e: Edit)
    requires Proper(s) && IsMerge(s, out) && out != [] && NonEmpty(e) && out[|out| - 1].end <= e.start
    ensures Connected(s + [e], e) && DropsOnlyDrops(s + [e], e)
  {
    hide Connected, DropsOnlyDrops, IsMerge;
    var t := s + [e];
    assert t[|s|] == e && Within(e, e);
    assert Connected(t, e) by { OwnConnected(t, |s|); }
    forall i | 0 <= i < |s| ensures !Within(t[i], e) {
      BeforeLastEnd(s, out, i);
      assert NonEmpty(s[i]) && t[i] == s[i];
    }
    OwnDrop(t, |s|);
  }

  lemma OwnConnected(t: seq<Edit>, k: nat)
    requires k < |t| && NonEmpty(t[k])
    ensures Connected(t, t[k])
  {
    assert Within(t[k], t[k]);
    forall c | t[k].start < c < t[k].end ensures Crossed(t, c) { assert Crosses(t[k], c); }
  }

  lemma OwnDrop(t: seq<Edit>, k: nat)
    requires k < |t| && forall i | 0 <= i < |t| && i != k :: !Within(t[i], t[k])
    ensures DropsOnlyDrops(t, t[k])
  {
    assert Within(t[k], t[k]);
  }

  lemma BeforeLastEnd(s: seq<Edit>, out: seq<Edit>, i: nat)
    requires IsMerge(s, out) && out != [] && i < |s|
    ensures s[i].end <= out[|out| - 1].end
  {
    hide Connected, DropsOnlyDrops;
    assert Inside(s[i], out);
    var k :| 0 <= k < |out| && Within(s[i], out[k]);
    assert NonEmpty(out[|out| - 1]);
  }

  lemma GrowLast(s: seq<Edit>, out: seq<Edit>, e: Edit)
    requires Proper(s) && IsMerge(s, out) && out != [] && NonEmpty(e) && e.start < out[|out| - 1].end
    requires forall i | 0 <= i < |s| :: s[i].start <= e.start
    ensures IsMerge(s + [e], Extend(out, e))
  {
    hide Inside, Connected, DropsOnlyDrops;
    var t, r, n := s + [e], Extend(out, e), |out| - 1;
    GroupStartsBefore(s, out, e.start, n);
    assert Proper(r) && Apart(r);
    forall i | 0 <= i < |t| ensures Inside(t[i], r) {
      if i < |s| { InsideGrown(s[i], out, r); } else { LastHolds(e, r); }
    }
    forall k | 0 <= k < |r| ensures Connected(t, r[k]) && DropsOnlyDrops(t, r[k]) {
      if k < n {
        ConnectedStays(s, e, out[k]);
        DropStays(s, e, out[k]);
      } else {
        GrownConnected(s, out[n], e, r[n]);
        GrownDrop(s, out, e, r[n]);
      }
    }
  }

  lemma LastHolds(e: Edit, r: seq<Edit>)
    requires r != [] && Within(e, r[|r| - 1])
    ensures Inside(e, r)
  {}

  lemma InsideGrown(x: Edit, out: seq<Edit>, r: seq<Edit>)
    requires Inside(x, out) && out != [] && |r| == |out|
    requires forall k | 0 <= k < |out| :: Within(out[k], r[k])
    ensures Inside(x, r)
  {
    var k :| 0 <= k < |out| && Within(x, out[k]);
    assert Within(x, r[k]);
  }

  lemma GrownConnected(s: seq<Edit>, cur: Edit, e: Edit, g: Edit)
    requires Connected(s, cur) && NonEmpty(e) && cur.start <= e.start < cur.end
    requires g.start == cur.start && g.end == if e.end > cur.end then e.end else cur.end
    ensures Connected(s + [e], g)
  {
    hide Crossed;
    var t := s + [e];
    ConnectedStays(s, e, cur);
    forall c | g.start < c < g.end ensures Crossed(t, c) {
      if c >= cur.end { CrossedByLast(s, e, c); } else { assert Crossed(t, c); }
    }
  }

  lemma CrossedByLast(s: seq<Edit>, e: Edit, c: int)
    requires Crosses(e, c)
    ensures Crossed(s + [e], c)
  {
    assert (s + [e])[|s|] == e;
  }

  lemma GrownDrop(s: seq<Edit>, out: seq<Edit>, e: Edit, g: Edit)
    requires Proper(s) && IsMerge(s, out) && out != []
    requires var cur := out[|out| - 1];
      Within(cur, g) && Within(e, g) && g.start == cur.start && g.drop == (cur.drop && e.drop)
    ensures DropsOnlyDrops(s + [e], g)
  {
    hide Connected, Inside;
    var t, n := s + [e], |out| - 1;
    var cur := out[n];
    assert t[|s|] == e;
    forall i | 0 <= i < |s| ensures t[i] == s[i] && (Within(s[i], g) <==> Within(s[i], cur)) {
      InLastOrBefore(s, out, i);
    }
    assert DropsOnlyDrops(s, cur);
  }

  /** An edit that starts where the last group does, or later, is inside that group. */
  lemma InLastOrBefore(s: seq<Edit>, out: seq<Edit>, i: nat)
    requires IsMerge(s, out) && out != [] && i < |s| && NonEmpty(s[i])
    ensures s[i].start >= out[|out| - 1].start ==> Within(s[i], out[|out| - 1])
  {
    hide Connected, DropsOnlyDrops;
    assert Inside(s[i], out);
    var k :| 0 <= k < |out| && Within(s[i], out[k]);
  }

  /** Some order by start, and so some merge, there always is. */
  lemma {:induction false} SortExists(es: seq<Edit>) returns (s: seq<Edit>)
    ensures multiset(s) == multiset(es) && SortedByStart(s)
    decreases |es|
  {
    hide InsertEdit;
    s := [];
    if es != [] {
      var n := |es| - 1;
      var t := SortExists(es[..n]);
      InsertSorts(t, es[n]);
      s := InsertEdit(t, es[n]);
      assert es == es[..n] + [es[n]];
    }
  }

  lemma MergeExists(es: seq<Edit>) returns (out: seq<Edit>)
    requires es != [] && Proper(es)
    ensures out != [] && IsMerge(es, out)
  {
    hide *;
    var s := SortExists(es);
    SameEdits(es, s);
    out := MergeSorted(s);
    MergeSortedIsMerge(s);
    MergeOfSame(s, es, out);
  }

  // ---- what a merge is worth -------------------------------------------------------------

  lemma MergeParts(es: seq<Edit>, out: seq<Edit>)
    requires IsMerge(es, out)
    ensures Proper(out) && Apart(out)
    ensures forall i | 0 <= i < |es| :: Inside(es[i], out)
    ensures forall k | 0 <= k < |out| :: Connected(es, out[k]) && DropsOnlyDrops(es, out[k])
  {}

  lemma ProperAt(s: seq<Edit>, k: nat)
    requires Proper(s) && k < |s|
    ensures NonEmpty(s[k])
  {}

  /** The groups cover exactly the bytes the edits cover. */
  lemma MergeCovers(es: seq<Edit>, out: seq<Edit>, p: int)
    requires Proper(es) && IsMerge(es, out)
    ensures Covered(out, p) <==> Covered(es, p)
  {
    hide *;
    MergeParts(es, out);
    if Covered(out, p) { GroupCovered(es, out, p); }
    if Covered(es, p) { EditCovered(es, out, p); }
  }

  lemma EditCovered(es: seq<Edit>, out: seq<Edit>, p: int)
    requires Covered(es, p) && forall i | 0 <= i < |es| :: Inside(es[i], out)
    ensures Covered(out, p)
  {
    var i :| 0 <= i < |es| && es[i].start <= p < es[i].end;
    assert Inside(es[i], out);
  }

  lemma GroupCovered(es: seq<Edit>, out: seq<Edit>, p: int)
    requires Proper(es) && Covered(out, p) && forall k | 0 <= k < |out| :: Connected(es, out[k])
    ensures Covered(es, p)
  {
    hide Proper, Crossed;
    var k :| 0 <= k < |out| && out[k].start <= p < out[k].end;
    assert Connected(es, out[k]);
    if p == out[k].start {
      var i :| 0 <= i < |es| && es[i].start == out[k].start && Within(es[i], out[k]);
      ProperAt(es, i);
    } else {
      CrossedCovered(es, p);
    }
  }

  lemma CrossedCovered(es: seq<Edit>, c: int)
    requires Crossed(es, c)
    ensures Covered(es, c)
  {
    var i :| 0 <= i < |es| && Crosses(es[i], c);
  }

  /** An edit that reaches across c puts c strictly inside a group. */
  lemma CrossedGroup(es: seq<Edit>, out: seq<Edit>, c: int)
    requires IsMerge(es, out) && Crossed(es, c)
    ensures Crossed(out, c)
  {
    hide Connected, DropsOnlyDrops, Apart, Proper;
    var i :| 0 <= i < |es| && Crosses(es[i], c);
    assert Inside(es[i], out);
    var k :| 0 <= k < |out| && Within(es[i], out[k]);
    assert Crosses(out[k], c);
  }

  /** No group reaches across the start or end of another. */
  lemma EdgesUncrossed(out: seq<Edit>, k: nat)
    requires Proper(out) && Apart(out) && k < |out|
    ensures !Crossed(out, out[k].start) && !Crossed(out, out[k].end)
  {
    forall j | 0 <= j < |out| ensures !Crosses(out[j], out[k].start) && !Crosses(out[j], out[k].end) {
      assert NonEmpty(out[j]) && NonEmpty(out[k]);
      if j < k { assert out[j].end <= out[k].start; }
      if k < j { assert out[k].end <= out[j].start; }
    }
  }

  /** The group that starts where an edit of es starts, and the group of the other merge that holds it. */
  lemma SharedStart(es: seq<Edit>, b: seq<Edit>, g: Edit) returns (h: nat)
    requires Proper(es) && Connected(es, g) && forall i | 0 <= i < |es| :: Inside(es[i], b)
    ensures h < |b| && b[h].start <= g.start < b[h].end && b[h].start < g.end
  {
    hide Crossed;
    var i :| 0 <= i < |es| && es[i].start == g.start && Within(es[i], g);
    assert NonEmpty(es[i]) && Inside(es[i], b);
    h :| 0 <= h < |b| && Within(es[i], b[h]);
  }

  /** Nothing reaches across the edges of a group, so another merge has the same edges. */
  lemma SameEdges(es: seq<Edit>, a: seq<Edit>, b: seq<Edit>, k: nat, h: nat)
    requires Proper(es) && IsMerge(es, a) && IsMerge(es, b) && k < |a| && h < |b|
    requires b[h].start <= a[k].start < b[h].end
    ensures b[h].start == a[k].start && b[h].end == a[k].end
  {
    hide IsMerge, Apart, Crossed, Proper, Inside, DropsOnlyDrops;
    MergeParts(es, a);
    MergeParts(es, b);
    var g := a[k];
    EdgesUncrossed(a, k);
    EdgesUncrossed(b, h);
    if Crossed(es, g.start) { CrossedGroup(es, a, g.start); }
    if Crossed(es, g.end) { CrossedGroup(es, a, g.end); }
    if Crossed(es, b[h].end) { CrossedGroup(es, b, b[h].end); }
    assert Connected(es, g) && Connected(es, b[h]);
    assert NonEmpty(g) && NonEmpty(b[h]) by { ProperAt(a, k); ProperAt(b, h); }
  }

  lemma GroupShared(es: seq<Edit>, a: seq<Edit>, b: seq<Edit>, k: nat)
    requires Proper(es) && IsMerge(es, a) && IsMerge(es, b) && k < |a|
    ensures a[k] in b
  {
    hide IsMerge, Apart, Crossed, Proper, Inside, Connected;
    MergeParts(es, a);
    MergeParts(es, b);
    var h := SharedStart(es, b, a[k]);
    SameEdges(es, a, b, k, h);
    assert DropsOnlyDrops(es, a[k]) && DropsOnlyDrops(es, b[h]);
    assert a[k].drop == b[h].drop;
  }

  /** Tie order in the sort, and every other choice, leaves the merge the same. */
  lemma MergeUnique(es: seq<Edit>, a: seq<Edit>, b: seq<Edit>)
    requires Proper(es) && IsMerge(es, a) && IsMerge(es, b)
    ensures a == b
  {
    hide *;
    MergeParts(es, a);
    MergeParts(es, b);
    GroupsShared(es, a, b);
    GroupsShared(es, b, a);
    assert SameElements(a, b) by { BothIn(a, b); }
    ApartSame(a, b);
  }

  lemma BothIn(a: seq<Edit>, b: seq<Edit>)
    requires AllIn(a, b) && AllIn(b, a)
    ensures SameElements(a, b)
  {}

  lemma GroupsShared(es: seq<Edit>, a: seq<Edit>, b: seq<Edit>)
    requires Proper(es) && IsMerge(es, a) && IsMerge(es, b)
    ensures AllIn(a, b)
  {
    hide Proper, IsMerge;
    forall k | 0 <= k < |a| ensures a[k] in b { GroupShared(es, a, b, k); }
  }

  lemma {:induction false} ApartSame(a: seq<Edit>, b: seq<Edit>)
    requires Proper(a) && Proper(b) && Apart(a) && Apart(b) && SameElements(a, b)
    ensures a == b
    decreases |a|
  {
    hide Proper, Apart;
    if b != [] { SomeIn(b, a); }
    if a != [] {
      var m, n := |a| - 1, |b| - 1;
      SomeIn(a, b);
      LastIsLast(a, b);
      WithoutLast(a, b);
      WithoutLast(b, a);
      ApartSame(a[..m], b[..n]);
      assert a == a[..m] + [a[m]] && b == b[..n] + [b[n]];
    }
  }

  lemma SomeIn(a: seq<Edit>, b: seq<Edit>)
    requires AllIn(a, b) && a != []
    ensures b != []
  {
    assert a[0] in b;
  }

  lemma WithoutLast(a: seq<Edit>, b: seq<Edit>)
    requires Proper(a) && Apart(a) && SameElements(a, b) && a != [] && b != [] && a[|a| - 1] == b[|b| - 1]
    ensures Proper(a[..|a| - 1]) && Apart(a[..|a| - 1])
    ensures AllIn(a[..|a| - 1], b[..|b| - 1])
  {
    var head := a[..|a| - 1];
    forall i | 0 <= i < |head| ensures head[i] in b[..|b| - 1] { LastDiffers(a, b, i); }
  }

  lemma LastIsLast(a: seq<Edit>, b: seq<Edit>)
    requires Proper(a) && Proper(b) && Apart(a) && Apart(b) && SameElements(a, b) && a != [] && b != []
    ensures a[|a| - 1] == b[|b| - 1]
  {
    var m, n := |a| - 1, |b| - 1;
    var i :| 0 <= i < |b| && b[i] == a[m];
    assert b[n] in a;
    var j :| 0 <= j < |a| && a[j] == b[n];
    assert NonEmpty(a[j]) && NonEmpty(a[m]);
  }

  lemma LastDiffers(a: seq<Edit>, b: seq<Edit>, i: nat)
    requires Proper(a) && Apart(a) && SameElements(a, b) && i < |a| - 1 && b != [] && a[|a| - 1] == b[|b| - 1]
    ensures a[i] in b[..|b| - 1]
  {
    assert a[i] in b;
    var j :| 0 <= j < |b| && b[j] == a[i];
    assert a[i].end <= a[|a| - 1].start && NonEmpty(a[i]) && NonEmpty(a[|a| - 1]);
    assert b[..|b| - 1][j] == b[j];
  }
}
