/**
 * Writing a page with every recorded edit applied: merge, widen over
 * placeholders already in the page, merge again, splice.
 *
 * A page is a sequence of bytes, written here as characters.
 */
module RedactEdits {
  import opened Common
  import opened EditMerge

  const PLACEHOLDER: string := "MARAUDER-REDACTED"
  const LEN: nat := 17

  predicate PlaceholderAt(page: string, i: int) {
    0 <= i <= |page| - LEN && page[i..i + LEN] == PLACEHOLDER
  }

  /** No part of the placeholder begins another one, so two of them never overlap. */
  lemma PlaceholdersApart(page: string, i: int, j: int)
    requires PlaceholderAt(page, i) && PlaceholderAt(page, j) && i < j
    ensures i + LEN <= j
  {
    if j < i + LEN {
      var k := j - i;
      assert page[i..i + LEN][k] == page[j];
      assert page[j..j + LEN][0] == page[j];
      assert PLACEHOLDER[k] == PLACEHOLDER[0] == 'M';
      OnlyFirstIsM(k);
    }
  }

  lemma OnlyFirstIsM(k: nat)
    requires 0 < k < LEN
    ensures PLACEHOLDER[k] != 'M'
  {}

  /** The first placeholder at or after off. */
  method IndexPlaceholder(page: string, off: nat) returns (r: Option<nat>)
    ensures r.Some? ==> off <= r.value && PlaceholderAt(page, r.value)
    ensures forall i | off <= i && PlaceholderAt(page, i) :: r.Some? && r.value <= i
  {
    var i := off;
    while i + LEN <= |page|
      invariant off <= i
      invariant forall j | off <= j < i :: !PlaceholderAt(page, j)
    {
      if page[i..i + LEN] == PLACEHOLDER { return Some(i); }
      i := i + 1;
    }
    return None;
  }

  // ---- widening -------------------------------------------------------------------------

  predicate Touches(e: Edit, i: int) { e.start < i + LEN && i < e.end }

  /** e overlaps a placeholder that starts before limit. */
  ghost predicate TouchesOne(page: string, limit: int, e: Edit) {
    exists i :: i < limit && PlaceholderAt(page, i) && Touches(e, i)
  }

  /** w is the smallest span over e and every placeholder before limit that overlaps it. */
  ghost predicate HullTo(page: string, limit: int, e: Edit, w: Edit) {
    && Within(e, w)
    && (forall i | i < limit && PlaceholderAt(page, i) && Touches(e, i) :: w.start <= i && i + LEN <= w.end)
    && (w.start == e.start || (w.start < limit && PlaceholderAt(page, w.start) && Touches(e, w.start)))
    && (w.end == e.end || (w.end - LEN < limit && PlaceholderAt(page, w.end - LEN) && Touches(e, w.end - LEN)))
    && (w.drop <==> e.drop && !TouchesOne(page, limit, e))
  }

  /** Every placeholder in the page compared with e. */
  ghost predicate IsHull(page: string, e: Edit, w: Edit) { HullTo(page, |page|, e, w) }

  /** The placeholders before off are all whole. */
  ghost predicate Boundary(page: string, off: int) {
    forall i | i < off && PlaceholderAt(page, i) :: i + LEN <= off
  }

  function Widen(e: Edit, p: int): Edit {
    Edit(if p < e.start then p else e.start, if p + LEN > e.end then p + LEN else e.end, false)
  }

  /** p is the next placeholder at or after off. */
  ghost predicate NextPlaceholder(page: string, off: int, p: int) {
    off <= p && PlaceholderAt(page, p) && forall i | off <= i < p :: !PlaceholderAt(page, i)
  }

  /** Widening so far changes nothing about which later placeholders an edit overlaps. */
  lemma SameTouches(page: string, off: int, e: Edit, w: Edit, p: int)
    requires Boundary(page, off) && HullTo(page, off, e, w) && off <= p
    ensures Touches(w, p) <==> Touches(e, p)
  {}

  lemma HullKept(page: string, off: int, e: Edit, w: Edit, p: int)
    requires Boundary(page, off) && HullTo(page, off, e, w) && NextPlaceholder(page, off, p) && !Touches(e, p)
    ensures HullTo(page, p + LEN, e, w)
  {
    NextOnly(page, off, p);
    TouchedSoFar(page, off, p, e);
  }

  /** Before the end of p the placeholders are those before off and p itself. */
  lemma NextOnly(page: string, off: int, p: int)
    requires NextPlaceholder(page, off, p)
    ensures forall i | i < p + LEN && PlaceholderAt(page, i) :: i < off || i == p
  {
    forall i | i < p + LEN && PlaceholderAt(page, i) ensures i < off || i == p {
      if p < i { PlaceholdersApart(page, p, i); }
    }
  }

  lemma TouchedSoFar(page: string, off: int, p: int, e: Edit)
    requires NextPlaceholder(page, off, p)
    ensures TouchesOne(page, p + LEN, e) <==> TouchesOne(page, off, e) || Touches(e, p)
  {
    NextOnly(page, off, p);
    if TouchesOne(page, off, e) {
      var i :| i < off && PlaceholderAt(page, i) && Touches(e, i);
      assert i < p + LEN;
    }
  }

  lemma HullWidened(page: string, off: int, e: Edit, w: Edit, p: int)
    requires Boundary(page, off) && HullTo(page, off, e, w) && NextPlaceholder(page, off, p) && Touches(e, p)
    ensures HullTo(page, p + LEN, e, Widen(w, p))
  {
    hide TouchesOne;
    NextOnly(page, off, p);
    TouchedSoFar(page, off, p, e);
    forall i | i < p + LEN && PlaceholderAt(page, i) && Touches(e, i)
      ensures Widen(w, p).start <= i && i + LEN <= Widen(w, p).end
    {}
  }

  lemma BoundaryAfter(page: string, off: int, p: int)
    requires Boundary(page, off) && NextPlaceholder(page, off, p)
    ensures Boundary(page, p + LEN)
  {
    NextOnly(page, off, p);
  }

  /** Every edit is widened over the placeholders before off. */
  ghost predicate SweptTo(page: string, off: int, was: seq<Edit>, now: seq<Edit>) {
    |was| == |now| && forall j | 0 <= j < |was| :: HullTo(page, off, was[j], now[j])
  }

  /**
   * Widens every edit over the placeholders it overlaps in one forward pass, which
   * comes to the same as comparing every placeholder with every edit.
   */
  method AbsorbPlaceholders(page: string, a: array<Edit>, n: nat)
    requires n <= a.Length && Proper(a[..n]) && Apart(a[..n])
    modifies a
    ensures SweptTo(page, |page|, old(a[..n]), a[..n])
  {
    hide *;
    ghost var was := a[..n];
    var k, off := 0, 0;
    NothingSwept(page, was);
    assert EndBy(a[..n], 0, 0) by { NoneEndBy(was); }
    while true
      invariant 0 <= k <= n
      invariant Boundary(page, off) && SweptTo(page, off, was, a[..n])
      invariant EndBy(a[..n], k, off)
      decreases |page| - off
    {
      var i := IndexPlaceholder(page, off);
      if i.None? {
        SweptAll(page, off, was, a[..n]);
        return;
      }
      var p := i.value;
      assert NextPlaceholder(page, off, p) by { IsNext(page, off, p); }
      EndByLater(a[..n], k, off, p);
      while k < n && a[k].end <= p
        invariant 0 <= k <= n
        invariant EndBy(a[..n], k, p) && SweptTo(page, off, was, a[..n])
      {
        EndByNext(a[..n], k, p);
        k := k + 1;
      }
      PassedNotTouched(page, off, p, was, a[..n], k);
      WidenFrom(page, off, p, a, n, k, was);
      BoundaryAfter(page, off, p);
      PlaceholderFits(page, p);
      off := p + LEN;
    }
  }

  /** The first k edits end by x. */
  predicate EndBy(es: seq<Edit>, k: nat, x: int)
    requires k <= |es|
  {
    forall j | 0 <= j < k :: es[j].end <= x
  }

  lemma PlaceholderFits(page: string, p: int)
    requires PlaceholderAt(page, p)
    ensures p < p + LEN <= |page|
  {}

  lemma IsNext(page: string, off: int, p: int)
    requires off <= p && PlaceholderAt(page, p) && forall i | off <= i && PlaceholderAt(page, i) :: p <= i
    ensures NextPlaceholder(page, off, p)
  {}

  lemma NothingSwept(page: string, was: seq<Edit>)
    ensures Boundary(page, 0) && SweptTo(page, 0, was, was)
  {}

  lemma SweptAll(page: string, off: int, was: seq<Edit>, now: seq<Edit>)
    requires SweptTo(page, off, was, now) && forall i | off <= i :: !PlaceholderAt(page, i)
    ensures SweptTo(page, |page|, was, now)
  {
    hide Touches;
    forall j | 0 <= j < |was| ensures HullTo(page, |page|, was[j], now[j]) {
      assert HullTo(page, off, was[j], now[j]);
    }
  }

  /** Edits the index has passed end before p. */
  lemma PassedNotTouched(page: string, off: int, p: int, was: seq<Edit>, now: seq<Edit>, k: nat)
    requires SweptTo(page, off, was, now) && k <= |now| && EndBy(now, k, p)
    ensures forall j | 0 <= j < k :: !Touches(was[j], p)
  {
    forall j | 0 <= j < k ensures !Touches(was[j], p) {
      assert HullTo(page, off, was[j], now[j]);
    }
  }

  /** The inner loop: edits from k on, up to the first that starts at or after the end of p. */
  method WidenFrom(page: string, ghost off: int, p: int, a: array<Edit>, n: nat, k: nat, ghost was: seq<Edit>)
    requires k <= n <= a.Length && n == |was| && Proper(was) && Apart(was)
    requires Boundary(page, off) && off <= p && NextPlaceholder(page, off, p) && SweptTo(page, off, was, a[..n])
    requires forall j | 0 <= j < k :: !Touches(was[j], p)
    requires EndBy(a[..n], k, p)
    requires k < n ==> a[k].end > p
    modifies a
    ensures SweptTo(page, p + LEN, was, a[..n])
    ensures EndBy(a[..n], k, p + LEN)
  {
    hide *;
    ghost var before := a[..n];
    var j := k;
    while j < n && a[j].start < p + LEN
      invariant k <= j <= n
      invariant a[..k] == before[..k] && a[j..n] == before[j..]
      invariant forall x | k <= x < j :: a[..n][x] == Widen(before[x], p) && Touches(was[x], p)
    {
      assert a[j] == a[j..n][0] == before[j];
      ReachesNext(page, off, p, was, before, k, j);
      a[j] := Edit(if p < a[j].start then p else a[j].start, if p + LEN > a[j].end then p + LEN else a[j].end, false);
      WidenedIs(before[j], p);
      j := j + 1;
      assert before[j - 1..][1..] == before[j..];
    }
    if j < n { assert a[j] == a[j..n][0] == before[j]; }
    LaterNotTouched(page, off, p, was, before, j);
    SweptOne(page, off, p, was, before, a[..n], k, j);
    StillEndBy(before, a[..n], k, p, p + LEN);
  }

  lemma StillEndBy(before: seq<Edit>, now: seq<Edit>, k: nat, x: int, y: int)
    requires k <= |before| == |now| && now[..k] == before[..k] && EndBy(before, k, x) && x <= y
    ensures EndBy(now, k, y)
  {
    forall j | 0 <= j < k ensures now[j].end <= y { assert now[..k][j] == before[..k][j]; }
  }

  lemma NoneEndBy(es: seq<Edit>)
    ensures EndBy(es, 0, 0)
  {}

  lemma EndByNext(es: seq<Edit>, k: nat, x: int)
    requires k < |es| && EndBy(es, k, x) && es[k].end <= x
    ensures EndBy(es, k + 1, x)
  {}

  lemma EndByLater(es: seq<Edit>, k: nat, x: int, y: int)
    requires k <= |es| && EndBy(es, k, x) && x <= y
    ensures EndBy(es, k, y)
  {}

  lemma WidenedIs(e: Edit, p: int)
    ensures Widen(e, p) == Edit(if p < e.start then p else e.start, if p + LEN > e.end then p + LEN else e.end, false)
  {}

  /** From the index on, an edit that starts before the end of p overlaps p. */
  lemma ReachesNext(page: string, off: int, p: int, was: seq<Edit>, now: seq<Edit>, k: nat, j: nat)
    requires |was| == |now| && k <= j < |was| && Proper(was) && Apart(was)
    requires Boundary(page, off) && off <= p && SweptTo(page, off, was, now)
    requires now[k].end > p && now[j].start < p + LEN
    ensures Touches(was[j], p)
  {
    assert HullTo(page, off, was[k], now[k]) && HullTo(page, off, was[j], now[j]);
    assert was[k].end > p;
    assert was[j].end > p by {
      if k < j { assert was[k].end <= was[j].start && NonEmpty(was[j]); }
    }
    SameTouches(page, off, was[j], now[j], p);
  }

  /** Edits are in order, so none after the first that starts too late overlaps p. */
  lemma LaterNotTouched(page: string, off: int, p: int, was: seq<Edit>, now: seq<Edit>, j: nat)
    requires |was| == |now| && j <= |was| && Proper(was) && Apart(was)
    requires SweptTo(page, off, was, now)
    requires j < |now| ==> now[j].start >= p + LEN
    ensures forall x | j <= x < |was| :: !Touches(was[x], p)
  {
    forall x | j <= x < |was| ensures !Touches(was[x], p) {
      assert HullTo(page, off, was[j], now[j]);
      assert NonEmpty(was[j]);
      if j < x { assert was[j].end <= was[x].start; }
    }
  }

  lemma SweptOne(page: string, off: int, p: int, was: seq<Edit>, before: seq<Edit>, now: seq<Edit>, k: nat, j: nat)
    requires |was| == |before| == |now| && k <= j <= |was|
    requires Boundary(page, off) && NextPlaceholder(page, off, p) && SweptTo(page, off, was, before)
    requires now[..k] == before[..k] && now[j..] == before[j..]
    requires forall x | k <= x < j :: now[x] == Widen(before[x], p) && Touches(was[x], p)
    requires forall x | 0 <= x < k :: !Touches(was[x], p)
    requires forall x | j <= x < |was| :: !Touches(was[x], p)
    ensures SweptTo(page, p + LEN, was, now)
  {
    hide HullTo, Touches, Widen, NextPlaceholder, Boundary;
    forall x | 0 <= x < |was| ensures HullTo(page, p + LEN, was[x], now[x]) {
      assert HullTo(page, off, was[x], before[x]);
      if k <= x < j {
        HullWidened(page, off, was[x], before[x], p);
      } else {
        assert now[x] == before[x] by {
          if x < k { assert now[..k][x] == before[..k][x]; } else { assert now[j..][x - j] == before[j..][x - j]; }
        }
        HullKept(page, off, was[x], before[x], p);
      }
    }
  }
}
