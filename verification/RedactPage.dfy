/**
 * The list of edits a scan records, and the page written with all of them.
 */
module RedactPage {
  import opened Common
  import opened EditMerge
  import opened RedactEdits

  // ---- what the written page is ------------------------------------------------------------

  /**
   * The edits a page is written with: merged, each widened over the placeholders it
   * overlaps, and merged again.
   */
  ghost predicate IsGrouping(page: string, es: seq<Edit>, groups: seq<Edit>) {
    exists merged, hulls ::
      IsMerge(es, merged) && SweptTo(page, |page|, merged, hulls) && IsMerge(hulls, groups)
  }

  /** The groups of the edits; with none recorded there are none. */
  ghost function Groups(page: string, es: seq<Edit>): seq<Edit> {
    if es != [] && exists g :: IsGrouping(page, es, g) then var g :| IsGrouping(page, es, g); g else []
  }

  /** What position p of the page turns into. */
  ghost function Piece(page: string, groups: seq<Edit>, p: nat): string
    requires p < |page|
  {
    if k: nat :| k < |groups| && groups[k].start == p then (if groups[k].drop then "" else PLACEHOLDER)
    else if Covered(groups, p) then ""
    else [page[p]]
  }

  /** The first n positions of the page, each turned into its piece. */
  ghost function Written(page: string, groups: seq<Edit>, n: nat): string
    requires n <= |page|
  {
    if n == 0 then "" else Written(page, groups, n - 1) + Piece(page, groups, n - 1)
  }

  predicate InPage(page: string, es: seq<Edit>) { forall i | 0 <= i < |es| :: es[i].end <= |page| }

  lemma PieceStart(page: string, groups: seq<Edit>, k: nat)
    requires Proper(groups) && Apart(groups) && InPage(page, groups) && k < |groups|
    ensures Piece(page, groups, groups[k].start) == if groups[k].drop then "" else PLACEHOLDER
  {
    assert NonEmpty(groups[k]);
    forall j: nat | j < |groups| && groups[j].start == groups[k].start ensures j == k { StartsOnce(groups, j, k); }
  }

  lemma StartsOnce(groups: seq<Edit>, j: nat, k: nat)
    requires Proper(groups) && Apart(groups) && j < |groups| && k < |groups| && groups[j].start == groups[k].start
    ensures j == k
  {
    assert NonEmpty(groups[j]) && NonEmpty(groups[k]);
  }

  /** From the start of group k to its end one placeholder is written, or nothing. */
  lemma {:induction false} WrittenGroup(page: string, groups: seq<Edit>, k: nat, n: nat)
    requires Proper(groups) && Apart(groups) && InPage(page, groups)
    requires k < |groups| && groups[k].start < n <= groups[k].end
    ensures Written(page, groups, n)
            == Written(page, groups, groups[k].start) + if groups[k].drop then "" else PLACEHOLDER
    decreases n
  {
    hide Piece, Apart, Proper;
    GroupAfter(page, groups, k);
    if n == groups[k].start + 1 {
      PieceStart(page, groups, k);
    } else {
      WrittenGroup(page, groups, k, n - 1);
      PieceInside(page, groups, k, n - 1);
    }
  }

  lemma PieceInside(page: string, groups: seq<Edit>, k: nat, p: nat)
    requires Proper(groups) && Apart(groups) && InPage(page, groups)
    requires k < |groups| && groups[k].start < p < groups[k].end
    ensures Piece(page, groups, p) == ""
  {
    assert Covered(groups, p);
    forall j: nat | j < |groups| ensures groups[j].start != p {
      assert NonEmpty(groups[j]);
      if j < k { assert groups[j].end <= groups[k].start; }
      if k < j { assert groups[k].end <= groups[j].start; }
    }
  }

  /** Between the groups the page's own bytes are written. */
  lemma {:induction false} WrittenGap(page: string, groups: seq<Edit>, from: nat, n: nat)
    requires Proper(groups) && from <= n <= |page| && forall p | from <= p < n :: !Covered(groups, p)
    ensures Written(page, groups, n) == Written(page, groups, from) + page[from..n]
    decreases n
  {
    hide Piece, Proper, Covered;
    if from < n {
      WrittenGap(page, groups, from, n - 1);
      PieceOwn(page, groups, n - 1);
      assert page[from..n] == page[from..n - 1] + [page[n - 1]];
    }
  }

  lemma PieceOwn(page: string, groups: seq<Edit>, p: nat)
    requires Proper(groups) && p < |page| && !Covered(groups, p)
    ensures Piece(page, groups, p) == [page[p]]
  {
    forall j: nat | j < |groups| ensures groups[j].start != p { assert NonEmpty(groups[j]); }
  }

  /** No group covers a byte between the end of one group and the start of the next. */
  lemma GapUncovered(groups: seq<Edit>, k: nat, p: int)
    requires Proper(groups) && Apart(groups) && k <= |groups|
    requires k > 0 ==> groups[k - 1].end <= p
    requires k < |groups| ==> p < groups[k].start
    ensures !Covered(groups, p)
  {
    forall j | 0 <= j < |groups| ensures !(groups[j].start <= p < groups[j].end) {
      if j < k - 1 { assert groups[j].end <= groups[k - 1].start && NonEmpty(groups[k - 1]); }
      if j > k { assert groups[k].end <= groups[j].start && NonEmpty(groups[k]); }
    }
  }

  // ---- the list ------------------------------------------------------------------------------

  function NonEmptySpans(pieces: seq<Span>): seq<Span> {
    if pieces == [] then []
    else
      var last := pieces[|pieces| - 1];
      NonEmptySpans(pieces[..|pieces| - 1]) + (if last.start < last.end then [last] else [])
  }

  /** One secret: a placeholder where it begins, and nothing where its later pieces were. */
  function SecretEdits(pieces: seq<Span>): (r: seq<Edit>)
    ensures forall i | 0 <= i < |r| :: r[i].start < r[i].end && (r[i].drop <==> i > 0)
  {
    var spans := NonEmptySpans(pieces);
    NonEmptySpansAre(pieces);
    seq(|spans|, i requires 0 <= i < |spans| => Edit(spans[i].start, spans[i].end, i > 0))
  }

  lemma {:induction false} NonEmptySpansAre(pieces: seq<Span>)
    ensures forall i | 0 <= i < |NonEmptySpans(pieces)| :: NonEmptySpans(pieces)[i].start < NonEmptySpans(pieces)[i].end
    decreases |pieces|
  {
    if pieces != [] { NonEmptySpansAre(pieces[..|pieces| - 1]); }
  }

  class EditList {
    var edits: seq<Edit>

    constructor ()
      ensures edits == []
    {
      edits := [];
    }

    method Replace(s: Span)
      modifies this
      ensures edits == old(edits) + SecretEdits([s])
    {
      NextSecretEdit([s], 0);
      assert [s][..1] == [s] && SecretEdits([s][..0]) == [];
      if s.start < s.end {
        edits := edits + [Edit(s.start, s.end, false)];
      }
    }

    method ReplaceAll(pieces: seq<Span>)
      modifies this
      ensures edits == old(edits) + SecretEdits(pieces)
    {
      var placed := false;
      for i := 0 to |pieces|
        invariant edits == old(edits) + SecretEdits(pieces[..i])
        invariant placed <==> NonEmptySpans(pieces[..i]) != []
      {
        var p := pieces[i];
        NextSecretEdit(pieces, i);
        if p.start < p.end {
          edits := edits + [Edit(p.start, p.end, placed)];
          placed := true;
        }
      }
      assert pieces[..|pieces|] == pieces;
    }

    /**
     * Writes the page: every position outside the groups as it was, in order, one
     * placeholder for each group that is not all drops, and nothing else.
     */
    method Apply(page: string) returns (out: string)
      requires Proper(edits) && InPage(page, edits)
      ensures edits != [] ==> IsGrouping(page, edits, Groups(page, edits))
      ensures out == Written(page, Groups(page, edits), |page|)
    {
      hide *;
      if |edits| == 0 {
        NothingWritten(page);
        NoGroups(page);
        return page;
      }
      var es := new Edit[|edits|](i requires 0 <= i < |edits| reads this => edits[i]);
      assert es[..|edits|] == edits;
      var n := MergeEdits(es, |edits|);
      ghost var merged := es[..n];
      MergeParts(edits, merged);
      AbsorbPlaceholders(page, es, n);
      ghost var hulls := es[..n];
      HullsProper(page, edits, merged, hulls);
      n := MergeEdits(es, n);
      ghost var groups := es[..n];
      GroupsKnown(page, edits, merged, hulls, groups);
      GroupsAre(page, edits, groups);
      out := Splice(page, es, n);
    }
  }

  lemma NoGroups(page: string)
    ensures Groups(page, []) == []
  {}

  lemma GroupsAre(page: string, es: seq<Edit>, groups: seq<Edit>)
    requires es != [] && Proper(es) && InPage(page, es) && IsGrouping(page, es, groups)
    ensures Groups(page, es) == groups
  {
    hide IsGrouping, Proper, InPage;
    GroupingUnique(page, es, groups, Groups(page, es));
  }

  lemma NextSecretEdit(pieces: seq<Span>, i: nat)
    requires i < |pieces|
    ensures NonEmptySpans(pieces[..i + 1])
            == NonEmptySpans(pieces[..i]) + if pieces[i].start < pieces[i].end then [pieces[i]] else []
    ensures SecretEdits(pieces[..i + 1])
            == SecretEdits(pieces[..i])
               + if pieces[i].start < pieces[i].end
                 then [Edit(pieces[i].start, pieces[i].end, NonEmptySpans(pieces[..i]) != [])] else []
  {
    assert pieces[..i + 1][..i] == pieces[..i];
  }

  lemma NothingWritten(page: string)
    ensures Written(page, [], |page|) == page
    ensures Proper([]) && Apart([]) && InPage(page, [])
  {
    WrittenGap(page, [], 0, |page|);
    assert page[0..|page|] == page;
  }

  /** The last loop: copy up to each group, write its placeholder, go on after it. */
  method Splice(page: string, es: array<Edit>, n: nat) returns (out: string)
    requires n <= es.Length && Proper(es[..n]) && Apart(es[..n]) && InPage(page, es[..n])
    ensures out == Written(page, es[..n], |page|)
  {
    hide *;
    ghost var groups := es[..n];
    out := "";
    var pos := 0;
    assert Written(page, groups, 0) == "" by { NothingYet(page, groups); }
    for k := 0 to n
      invariant 0 <= pos <= |page| && out == Written(page, groups, pos)
      invariant pos == if k == 0 then 0 else groups[k - 1].end
    {
      var e := es[k];
      assert e == groups[k];
      GroupAfter(page, groups, k);
      forall p | pos <= p < e.start ensures !Covered(groups, p) { GapUncovered(groups, k, p); }
      WrittenGap(page, groups, pos, e.start);
      out := out + page[pos..e.start];
      WrittenGroup(page, groups, k, e.end);
      if !e.drop {
        out := out + PLACEHOLDER;
      }
      pos := e.end;
    }
    forall p | pos <= p < |page| ensures !Covered(groups, p) { GapUncovered(groups, n, p); }
    WrittenGap(page, groups, pos, |page|);
    assert page[pos..] == page[pos..|page|];
    out := out + page[pos..];
  }

  lemma NothingYet(page: string, groups: seq<Edit>)
    ensures Written(page, groups, 0) == ""
  {}

  lemma GroupAfter(page: string, groups: seq<Edit>, k: nat)
    requires Proper(groups) && Apart(groups) && InPage(page, groups) && k < |groups|
    ensures 0 <= groups[k].start < groups[k].end <= |page|
    ensures k > 0 ==> groups[k - 1].end <= groups[k].start
  {
    assert NonEmpty(groups[k]);
  }

  // ---- grouping ---------------------------------------------------------------------------------

  /** A group ends where one of its edits does. */
  lemma MergeInPage(page: string, es: seq<Edit>, out: seq<Edit>)
    requires Proper(es) && InPage(page, es) && IsMerge(es, out)
    ensures InPage(page, out)
  {
    hide *;
    MergeParts(es, out);
    forall k | 0 <= k < |out| ensures out[k].end <= |page| {
      ProperAt(out, k);
      EndCovered(out, k);
      MergeCovers(es, out, out[k].end - 1);
      CoveredInPage(page, es, out[k].end - 1);
    }
    EachInPage(page, out);
  }

  lemma EachInPage(page: string, out: seq<Edit>)
    requires forall k | 0 <= k < |out| :: out[k].end <= |page|
    ensures InPage(page, out)
  {}

  lemma EndCovered(out: seq<Edit>, k: nat)
    requires k < |out| && NonEmpty(out[k])
    ensures Covered(out, out[k].end - 1)
  {}

  lemma CoveredInPage(page: string, es: seq<Edit>, p: int)
    requires InPage(page, es) && Covered(es, p)
    ensures p < |page|
  {}

  lemma HullsInPage(page: string, merged: seq<Edit>, hulls: seq<Edit>)
    requires Proper(merged) && InPage(page, merged) && SweptTo(page, |page|, merged, hulls)
    ensures Proper(hulls) && InPage(page, hulls)
  {
    hide Touches, TouchesOne;
    forall k | 0 <= k < |hulls| ensures NonEmpty(hulls[k]) && hulls[k].end <= |page| {
      assert NonEmpty(merged[k]) && HullTo(page, |page|, merged[k], hulls[k]);
    }
  }

  lemma HullsProper(page: string, es: seq<Edit>, merged: seq<Edit>, hulls: seq<Edit>)
    requires Proper(es) && InPage(page, es) && IsMerge(es, merged) && SweptTo(page, |page|, merged, hulls)
    ensures Proper(hulls) && InPage(page, hulls)
  {
    hide *;
    MergeParts(es, merged);
    MergeInPage(page, es, merged);
    HullsInPage(page, merged, hulls);
  }

  lemma GroupsKnown(page: string, es: seq<Edit>, merged: seq<Edit>, hulls: seq<Edit>, groups: seq<Edit>)
    requires Proper(es) && InPage(page, es)
    requires IsMerge(es, merged) && SweptTo(page, |page|, merged, hulls) && IsMerge(hulls, groups)
    ensures IsGrouping(page, es, groups)
    ensures Proper(groups) && Apart(groups) && InPage(page, groups)
  {
    hide IsMerge, SweptTo, Proper, Apart, InPage;
    HullsProper(page, es, merged, hulls);
    MergeParts(hulls, groups);
    MergeInPage(page, hulls, groups);
  }

  lemma HullUnique(page: string, e: Edit, v: Edit, w: Edit)
    requires IsHull(page, e, v) && IsHull(page, e, w)
    ensures v == w
  {
    hide TouchesOne;
  }

  lemma HullExists(page: string, e: Edit) returns (w: Edit)
    requires NonEmpty(e)
    ensures IsHull(page, e, w)
  {
    hide PlaceholderAt;
    var lo, hi := e.start, e.end;
    if i :| PlaceholderAt(page, i) && Touches(e, i) && i < e.start { lo := i; }
    if j :| PlaceholderAt(page, j) && Touches(e, j) && j + LEN > e.end { hi := j + LEN; }
    w := Edit(lo, hi, e.drop && !TouchesOne(page, |page|, e));
    forall i | PlaceholderAt(page, i) && Touches(e, i) ensures lo <= i && i + LEN <= hi && i < |page| {
      PlaceholderFits(page, i);
      if i < lo && lo < e.start { PlaceholdersApart(page, i, lo); }
      if hi > e.end && hi - LEN < i { PlaceholdersApart(page, hi - LEN, i); }
    }
    if lo < e.start { PlaceholderFits(page, lo); }
    if hi > e.end { PlaceholderFits(page, hi - LEN); }
  }

  lemma {:induction false} SweepExists(page: string, merged: seq<Edit>) returns (hulls: seq<Edit>)
    requires Proper(merged)
    ensures SweptTo(page, |page|, merged, hulls)
    decreases |merged|
  {
    hide HullTo;
    hulls := [];
    if merged != [] {
      var n := |merged| - 1;
      var head := SweepExists(page, merged[..n]);
      var w := HullExists(page, merged[n]);
      hulls := head + [w];
      forall j | 0 <= j < |merged| ensures HullTo(page, |page|, merged[j], hulls[j]) {
        if j < n { assert HullTo(page, |page|, merged[..n][j], head[j]); }
      }
    }
  }

  lemma GroupingExists(page: string, es: seq<Edit>)
    requires es != [] && Proper(es) && InPage(page, es)
    ensures IsGrouping(page, es, Groups(page, es))
  {
    hide IsMerge, SweptTo, Proper, InPage;
    var merged := MergeExists(es);
    MergeParts(es, merged);
    var hulls := SweepExists(page, merged);
    HullsProper(page, es, merged, hulls);
    SweptLength(page, merged, hulls);
    var groups := MergeExists(hulls);
    assert IsGrouping(page, es, groups);
  }

  lemma SweptLength(page: string, merged: seq<Edit>, hulls: seq<Edit>)
    requires SweptTo(page, |page|, merged, hulls)
    ensures |hulls| == |merged|
  {}

  /**
   * The groups depend on the recorded edits alone: how the sort orders edits that
   * start together never shows in the written page.
   */
  lemma GroupingUnique(page: string, es: seq<Edit>, a: seq<Edit>, b: seq<Edit>)
    requires Proper(es) && InPage(page, es) && IsGrouping(page, es, a) && IsGrouping(page, es, b)
    ensures a == b
  {
    hide IsMerge, SweptTo, Proper, InPage;
    var m1, h1 :| IsMerge(es, m1) && SweptTo(page, |page|, m1, h1) && IsMerge(h1, a);
    var m2, h2 :| IsMerge(es, m2) && SweptTo(page, |page|, m2, h2) && IsMerge(h2, b);
    MergeUnique(es, m1, m2);
    SweptUnique(page, m1, h1, h2);
    HullsProper(page, es, m1, h1);
    MergeUnique(h1, a, b);
  }

  lemma SweptUnique(page: string, merged: seq<Edit>, h1: seq<Edit>, h2: seq<Edit>)
    requires SweptTo(page, |page|, merged, h1) && SweptTo(page, |page|, merged, h2)
    ensures h1 == h2
  {
    hide HullTo;
    forall j | 0 <= j < |merged| ensures h1[j] == h2[j] {
      assert HullTo(page, |page|, merged[j], h1[j]) && HullTo(page, |page|, merged[j], h2[j]);
      HullUnique(page, merged[j], h1[j], h2[j]);
    }
  }

  // ---- coverage -----------------------------------------------------------------------------------

  /** Position p belongs to a placeholder that some edit overlaps. */
  ghost predicate InTouched(page: string, es: seq<Edit>, p: int) {
    exists i, j :: 0 <= j < |es| && PlaceholderAt(page, i) && i <= p < i + LEN && Touches(es[j], i)
  }

  lemma HullCovers(page: string, e: Edit, w: Edit, p: int)
    requires NonEmpty(e) && IsHull(page, e, w)
    ensures w.start <= p < w.end <==>
              e.start <= p < e.end || exists i :: PlaceholderAt(page, i) && i <= p < i + LEN && Touches(e, i)
  {
    hide TouchesOne;
    if w.start <= p < e.start { assert PlaceholderAt(page, w.start) && Touches(e, w.start); }
    if e.end <= p < w.end { assert PlaceholderAt(page, w.end - LEN) && Touches(e, w.end - LEN); }
  }

  lemma SweptCovers(page: string, merged: seq<Edit>, hulls: seq<Edit>, p: int)
    requires Proper(merged) && SweptTo(page, |page|, merged, hulls)
    ensures Covered(hulls, p) <==> Covered(merged, p) || InTouched(page, merged, p)
  {
    hide HullTo, Touches, PlaceholderAt;
    forall j | 0 <= j < |merged|
      ensures hulls[j].start <= p < hulls[j].end <==>
                merged[j].start <= p < merged[j].end
                || exists i :: PlaceholderAt(page, i) && i <= p < i + LEN && Touches(merged[j], i)
    {
      assert HullTo(page, |page|, merged[j], hulls[j]);
      HullCovers(page, merged[j], hulls[j], p);
    }
  }

  /** Overlapping a placeholder is covering one of its bytes. */
  lemma TouchedIsCovered(page: string, es: seq<Edit>, i: int)
    requires Proper(es)
    ensures (exists j :: 0 <= j < |es| && Touches(es[j], i)) <==> exists q :: i <= q < i + LEN && Covered(es, q)
  {
    if j :| 0 <= j < |es| && Touches(es[j], i) {
      var q := if es[j].start < i then i else es[j].start;
      assert NonEmpty(es[j]) && i <= q < i + LEN && Covered(es, q);
    }
    if q :| i <= q < i + LEN && Covered(es, q) {
      var j :| 0 <= j < |es| && es[j].start <= q < es[j].end;
      assert Touches(es[j], i);
    }
  }

  lemma SameCoverTouches(page: string, a: seq<Edit>, b: seq<Edit>, p: int)
    requires Proper(a) && Proper(b) && forall q :: Covered(a, q) <==> Covered(b, q)
    requires InTouched(page, a, p)
    ensures InTouched(page, b, p)
  {
    hide Covered, Touches;
    var i, j :| 0 <= j < |a| && PlaceholderAt(page, i) && i <= p < i + LEN && Touches(a[j], i);
    TouchedIsCovered(page, a, i);
    TouchedIsCovered(page, b, i);
  }

  /**
   * What is taken out of the page is exactly the recorded edits and the placeholders
   * they overlap.
   */
  lemma GroupsCover(page: string, es: seq<Edit>, p: int)
    requires Proper(es) && InPage(page, es)
    ensures Covered(Groups(page, es), p) <==> Covered(es, p) || InTouched(page, es, p)
  {
    hide IsMerge, SweptTo, Proper, InPage, Covered, InTouched, Groups;
    if es == [] {
      NothingCovered(page, p);
    } else {
      GroupingExists(page, es);
      GroupingCovers(page, es, Groups(page, es), p);
    }
  }

  lemma NothingCovered(page: string, p: int)
    ensures Groups(page, []) == [] && !Covered([], p) && !InTouched(page, [], p)
  {}

  lemma GroupingCovers(page: string, es: seq<Edit>, groups: seq<Edit>, p: int)
    requires Proper(es) && InPage(page, es) && IsGrouping(page, es, groups)
    ensures Covered(groups, p) <==> Covered(es, p) || InTouched(page, es, p)
  {
    hide IsMerge, SweptTo, Proper, InPage, Covered, InTouched;
    var merged, hulls :| IsMerge(es, merged) && SweptTo(page, |page|, merged, hulls) && IsMerge(hulls, groups);
    MergeParts(es, merged);
    HullsProper(page, es, merged, hulls);
    MergeCovers(hulls, groups, p);
    SweptCovers(page, merged, hulls, p);
    forall q ensures Covered(merged, q) <==> Covered(es, q) { MergeCovers(es, merged, q); }
    if InTouched(page, es, p) { SameCoverTouches(page, es, merged, p); }
    if InTouched(page, merged, p) { SameCoverTouches(page, merged, es, p); }
  }

  // ---- the fixed point --------------------------------------------------------------------------------

  ghost predicate InPlaceholder(page: string, e: Edit) {
    exists i :: PlaceholderAt(page, i) && i <= e.start && e.end <= i + LEN
  }

  ghost predicate AllInPlaceholders(page: string, es: seq<Edit>) {
    forall k | 0 <= k < |es| :: InPlaceholder(page, es[k])
  }

  /** e is exactly one placeholder, to be replaced by one. */
  predicate ExactPlaceholder(page: string, e: Edit) {
    PlaceholderAt(page, e.start) && e.end == e.start + LEN && !e.drop
  }

  predicate AllExact(page: string, es: seq<Edit>) { forall k | 0 <= k < |es| :: ExactPlaceholder(page, es[k]) }

  /** Edits inside placeholders only join edits of the same placeholder. */
  lemma MergedInPlaceholder(page: string, es: seq<Edit>, g: Edit)
    requires Proper(es) && AllInPlaceholders(page, es) && Connected(es, g) && NonEmpty(g)
    ensures InPlaceholder(page, g)
  {
    var k :| 0 <= k < |es| && es[k].start == g.start && Within(es[k], g);
    assert InPlaceholder(page, es[k]) && NonEmpty(es[k]);
    var i :| PlaceholderAt(page, i) && i <= es[k].start && es[k].end <= i + LEN;
    if g.end > i + LEN { EndUncrossed(page, es, i); }
  }

  lemma EndUncrossed(page: string, es: seq<Edit>, i: int)
    requires AllInPlaceholders(page, es) && PlaceholderAt(page, i)
    ensures !Crossed(es, i + LEN)
  {
    hide PlaceholderAt;
    forall j | 0 <= j < |es| ensures !Crosses(es[j], i + LEN) {
      assert InPlaceholder(page, es[j]);
      var m :| PlaceholderAt(page, m) && m <= es[j].start && es[j].end <= m + LEN;
      if i < m { PlaceholdersApart(page, i, m); }
    }
  }

  lemma HullIsExact(page: string, e: Edit, w: Edit)
    requires NonEmpty(e) && InPlaceholder(page, e) && IsHull(page, e, w)
    ensures ExactPlaceholder(page, w)
  {
    var i :| PlaceholderAt(page, i) && i <= e.start && e.end <= i + LEN;
    assert Touches(e, i);
    assert w.start <= i && i + LEN <= w.end;
    if w.start < i { PlaceholdersApart(page, w.start, i); }
    if w.end > i + LEN { PlaceholdersApart(page, i, w.end - LEN); }
    assert TouchesOne(page, |page|, e);
  }

  lemma ExactMerge(page: string, hulls: seq<Edit>, g: Edit)
    requires Proper(hulls) && AllExact(page, hulls) && NonEmpty(g) && Connected(hulls, g) && DropsOnlyDrops(hulls, g)
    ensures ExactPlaceholder(page, g)
  {
    hide PlaceholderAt;
    var k :| 0 <= k < |hulls| && hulls[k].start == g.start && Within(hulls[k], g);
    assert ExactPlaceholder(page, hulls[k]);
    forall j | 0 <= j < |hulls| ensures InPlaceholder(page, hulls[j]) { assert ExactPlaceholder(page, hulls[j]); }
    if g.end > g.start + LEN { EndUncrossed(page, hulls, g.start); }
  }

  lemma GroupsAreExact(page: string, es: seq<Edit>, groups: seq<Edit>)
    requires Proper(es) && InPage(page, es) && AllInPlaceholders(page, es) && IsGrouping(page, es, groups)
    ensures AllExact(page, groups)
  {
    hide IsMerge, SweptTo, Proper, InPage, AllInPlaceholders, ExactPlaceholder, Inside, Connected, DropsOnlyDrops;
    var merged, hulls :| IsMerge(es, merged) && SweptTo(page, |page|, merged, hulls) && IsMerge(hulls, groups);
    MergeParts(es, merged);
    HullsProper(page, es, merged, hulls);
    SweptExact(page, es, merged, hulls);
    MergeParts(hulls, groups);
    forall k | 0 <= k < |groups| ensures ExactPlaceholder(page, groups[k]) {
      ProperAt(groups, k);
      ExactMerge(page, hulls, groups[k]);
    }
  }

  lemma SweptExact(page: string, es: seq<Edit>, merged: seq<Edit>, hulls: seq<Edit>)
    requires Proper(es) && AllInPlaceholders(page, es) && Proper(merged)
    requires forall k | 0 <= k < |merged| :: Connected(es, merged[k])
    requires SweptTo(page, |page|, merged, hulls)
    ensures AllExact(page, hulls)
  {
    hide Proper, AllInPlaceholders, ExactPlaceholder, Connected, HullTo;
    forall k | 0 <= k < |hulls| ensures ExactPlaceholder(page, hulls[k]) {
      assert HullTo(page, |page|, merged[k], hulls[k]) && Connected(es, merged[k]);
      ProperAt(merged, k);
      MergedInPlaceholder(page, es, merged[k]);
      HullIsExact(page, merged[k], hulls[k]);
    }
  }

  lemma {:induction false} ExactWritesSame(page: string, groups: seq<Edit>, n: nat)
    requires Proper(groups) && Apart(groups) && InPage(page, groups) && AllExact(page, groups)
    requires n <= |page| && !Crossed(groups, n)
    ensures Written(page, groups, n) == page[..n]
    decreases n
  {
    hide Proper, Apart, InPage, AllExact, Covered, Crossed, Written, PlaceholderAt;
    if n == 0 {
      NothingYet(page, groups);
    } else if Covered(groups, n - 1) {
      var k := EndsAt(groups, n);
      GroupAfter(page, groups, k);
      EdgesUncrossed(groups, k);
      ExactWritesSame(page, groups, groups[k].start);
      WrittenGroup(page, groups, k, n);
      ExactAt(page, groups, k);
    } else {
      CrossedBelow(groups, n - 1);
      ExactWritesSame(page, groups, n - 1);
      WrittenGap(page, groups, n - 1, n);
      assert page[..n] == page[..n - 1] + page[n - 1..n];
    }
  }

  lemma ExactAt(page: string, groups: seq<Edit>, k: nat)
    requires AllExact(page, groups) && k < |groups|
    ensures !groups[k].drop && 0 <= groups[k].start <= groups[k].end <= |page|
    ensures page[..groups[k].end] == page[..groups[k].start] + PLACEHOLDER
  {
    var g := groups[k];
    assert ExactPlaceholder(page, g);
    assert page[..g.end] == page[..g.start] + page[g.start..g.end];
  }

  lemma EndsAt(groups: seq<Edit>, n: nat) returns (k: nat)
    requires Covered(groups, n - 1) && !Crossed(groups, n)
    ensures k < |groups| && groups[k].end == n
  {
    k :| k < |groups| && groups[k].start <= n - 1 < groups[k].end;
    assert !Crosses(groups[k], n);
  }

  lemma CrossedBelow(groups: seq<Edit>, p: int)
    requires !Covered(groups, p)
    ensures !Crossed(groups, p)
  {
    forall j | 0 <= j < |groups| ensures !Crosses(groups[j], p) {}
  }

  /**
   * Edits that all lie inside placeholders already in the page, dropped or not, leave
   * the page as it is: redacting a second time is harmless.
   */
  lemma PlaceholdersAreFixed(page: string, es: seq<Edit>)
    requires Proper(es) && InPage(page, es) && AllInPlaceholders(page, es)
    ensures Written(page, Groups(page, es), |page|) == page
  {
    hide *;
    if es == [] {
      NoGroups(page);
      NothingWritten(page);
    } else {
      var groups := Groups(page, es);
      GroupingExists(page, es);
      GroupsAreExact(page, es, groups);
      GroupingParts(page, es, groups);
      EndOfPage(page, groups);
      ExactWritesSame(page, groups, |page|);
      assert page[..|page|] == page;
    }
  }

  lemma GroupingParts(page: string, es: seq<Edit>, groups: seq<Edit>)
    requires Proper(es) && InPage(page, es) && IsGrouping(page, es, groups)
    ensures Proper(groups) && Apart(groups) && InPage(page, groups)
  {
    hide IsMerge, SweptTo, Proper, Apart, InPage;
    var merged, hulls :| IsMerge(es, merged) && SweptTo(page, |page|, merged, hulls) && IsMerge(hulls, groups);
    GroupsKnown(page, es, merged, hulls, groups);
  }

  lemma EndOfPage(page: string, groups: seq<Edit>)
    requires InPage(page, groups)
    ensures !Crossed(groups, |page|)
  {
    forall j | 0 <= j < |groups| ensures !Crosses(groups[j], |page|) {}
  }
}
