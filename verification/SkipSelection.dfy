/**
 * torrentmeta: which client files an update marks "do not download".
 */
module SkipSelection {
  import opened Common
  import opened TorrentLayout

  /** The sublist of `next` made of the elements of `prev`; order and repeats are those of `next`. */
  function InBoth(prev: seq<TorrentFile>, next: seq<TorrentFile>): seq<TorrentFile> {
    if next == [] then []
    else
      var last := next[|next| - 1];
      InBoth(prev, next[..|next| - 1]) + (if last in prev then [last] else [])
  }

  method SkipSet(prev: seq<TorrentFile>, next: seq<TorrentFile>) returns (skip: seq<TorrentFile>)
    ensures skip == InBoth(prev, next)
  {
    var known: set<TorrentFile> := {};
    for i := 0 to |prev|
      invariant known == set k | 0 <= k < i :: prev[k]
    {
      known := known + {prev[i]};
    }
    skip := [];
    for i := 0 to |next|
      invariant skip == InBoth(prev, next[..i])
    {
      assert next[..i + 1][..i] == next[..i];
      if next[i] in known {
        skip := skip + [next[i]];
      }
    }
    assert next[..|next|] == next;
  }

  lemma {:induction false} InBothMembers(prev: seq<TorrentFile>, next: seq<TorrentFile>)
    ensures forall f :: f in InBoth(prev, next) <==> f in prev && f in next
    ensures |InBoth(prev, next)| <= |next|
    decreases |next|
  {
    if next != [] {
      var n := |next| - 1;
      InBothMembers(prev, next[..n]);
      assert next == next[..n] + [next[n]];
    }
  }

  predicate Ascending(s: seq<int>) {
    forall i, j | 0 <= i < j < |s| :: s[i] < s[j]
  }

  /** Insertion into an ascending list of other values. */
  function InsertSorted(s: seq<int>, x: int): (r: seq<int>)
    requires Ascending(s) && x !in s
    ensures Ascending(r)
    ensures forall y :: y in r <==> y in s || y == x
  {
    if s == [] || x < s[0] then
      [x] + s
    else
      var rest := InsertSorted(s[1..], x);
      assert s == [s[0]] + s[1..];
      assert forall k | 0 <= k < |rest| :: rest[k] in rest;
      [s[0]] + rest
  }

  lemma EmptyOrInhabited(s: set<int>)
    ensures s == {} || exists i :: i in s
  {
    if forall i :: i !in s {
      assert s == {};
    }
  }

  predicate Chosen(mapping: Mapping, skip: seq<TorrentFile>, left: set<int>, i: int) {
    i in mapping && i !in left && mapping[i] in skip
  }

  /**
   * The preimage of `skip` under the mapping, as an ascending list. Each round takes
   * any key that is left: map iteration has no order to rely on.
   */
  method SkipIndices(mapping: Mapping, skip: seq<TorrentFile>) returns (indices: seq<int>)
    ensures Ascending(indices)
    ensures forall i :: i in indices <==> i in mapping && mapping[i] in skip
  {
    indices := [];
    var left: set<int> := mapping.Keys;
    while left != {}
      invariant left <= mapping.Keys
      invariant Ascending(indices)
      invariant forall i :: i in indices <==> Chosen(mapping, skip, left, i)
      decreases left
    {
      EmptyOrInhabited(left);
      var i :| i in left;
      left := left - {i};
      if mapping[i] in skip {
        indices := InsertSorted(indices, i);
      }
    }
  }

  // ---- exactness ----------------------------------------------------------------

  /** How many entries of s prev already had depends on the bag s only. */
  lemma {:induction false} InBothCountsBag(prev: seq<TorrentFile>, a: seq<TorrentFile>, b: seq<TorrentFile>)
    requires multiset(a) == multiset(b)
    ensures |InBoth(prev, a)| == |InBoth(prev, b)|
    decreases |a|
  {
    BagSize(a, b);
    if a != [] {
      var n := |a| - 1;
      var k := RemoveOne(a, b);
      InBothCountsBag(prev, a[..n], b[..k] + b[k + 1..]);
      InBothCut(prev, b, k);
    }
  }

  lemma {:induction false} InBothCut(prev: seq<TorrentFile>, s: seq<TorrentFile>, k: nat)
    requires k < |s|
    ensures |InBoth(prev, s)| == |InBoth(prev, s[..k] + s[k + 1..])| + (if s[k] in prev then 1 else 0)
    decreases |s|
  {
    var n := |s| - 1;
    if k == n {
      assert s[..k] + s[k + 1..] == s[..n];
    } else {
      InBothCut(prev, s[..n], k);
      var cut := s[..k] + s[k + 1..];
      assert cut[..|cut| - 1] == s[..n][..k] + s[..n][k + 1..];
      assert cut[|cut| - 1] == s[n];
    }
  }

  /** Pairing by pairing, each index of a known file matches one entry of InBoth. */
  lemma {:induction false} KnownIndices(prev: seq<TorrentFile>, es: seq<Entry>, m: Mapping)
    requires DistinctIndices(es) && Pairs(es, m)
    ensures |set i | i in m && m[i] in prev| == |InBoth(prev, FilesOf(es))|
    decreases |es|
  {
    hide DistinctIndices, FilesOf, InBoth;
    var known := set i | i in m && m[i] in prev;
    if es == [] {
      NothingKnown(prev, m, known);
      NothingInBoth(prev);
    } else {
      var head, last := es[..|es| - 1], es[|es| - 1];
      var rest := m - {last.index};
      PairsDropLast(es, m);
      KnownIndices(prev, head, rest);
      LastInBoth(prev, es);
      LastKnown(prev, m, last);
    }
  }

  lemma NothingKnown(prev: seq<TorrentFile>, m: Mapping, known: set<int>)
    requires known <= m.Keys && Pairs([], m)
    ensures known == {}
  {
    assert forall i :: i !in m;
    EmptyOrInhabited(known);
  }

  lemma NothingInBoth(prev: seq<TorrentFile>)
    ensures InBoth(prev, FilesOf([])) == []
  {}

  lemma LastInBoth(prev: seq<TorrentFile>, es: seq<Entry>)
    requires es != []
    ensures |InBoth(prev, FilesOf(es))|
            == |InBoth(prev, FilesOf(es[..|es| - 1]))| + (if es[|es| - 1].file in prev then 1 else 0)
  {
    assert FilesOf(es)[..|es| - 1] == FilesOf(es[..|es| - 1]);
  }

  lemma LastKnown(prev: seq<TorrentFile>, m: Mapping, last: Entry)
    requires last.index in m && m[last.index] == last.file
    ensures |set i | i in m && m[i] in prev|
            == |set i | i in m - {last.index} && (m - {last.index})[i] in prev| + (if last.file in prev then 1 else 0)
  {
    var known := set i | i in m && m[i] in prev;
    var fewer := set i | i in m - {last.index} && (m - {last.index})[i] in prev;
    if last.file in prev {
      assert known == fewer + {last.index};
    } else {
      assert known == fewer;
    }
  }

  lemma {:induction false} AscendingIsSet(s: seq<int>)
    requires Ascending(s)
    ensures |set x | x in s| == |s|
    decreases |s|
  {
    if s != [] {
      var head, last := s[..|s| - 1], s[|s| - 1];
      AscendingIsSet(head);
      assert s == head + [last];
      assert (set x | x in s) == (set x | x in head) + {last};
    }
  }

  /**
   * Counting entries of the manifest and counting indices of the client come to the
   * same: under any fitting mapping as many indices are skipped as SkipSet has entries,
   * repeated entries included, and exactly the indices of new files are left.
   */
  lemma SkipIsExact(client: seq<ClientFile>, prev: seq<TorrentFile>, next: seq<TorrentFile>, m: Mapping, indices: seq<int>)
    requires Fits(client, next, m)
    requires Ascending(indices)
    requires forall i :: i in indices <==> i in m && m[i] in InBoth(prev, next)
    ensures forall i :: i in indices <==> i in m && m[i] in prev
    ensures |indices| == |InBoth(prev, next)|
    ensures |set i | i in m && m[i] !in prev| == |next| - |InBoth(prev, next)|
  {
    hide *;
    SkippedAreKnown(client, prev, next, m, indices);
    KnownOfFitting(client, prev, next, m);
    AscendingIsSet(indices);
    SameIndices(indices, m, prev);
    FitsCoversManifest(client, next, m);
    SplitKeys(m, prev);
  }

  lemma SameIndices(indices: seq<int>, m: Mapping, prev: seq<TorrentFile>)
    requires forall i :: i in indices <==> i in m && m[i] in prev
    ensures (set x | x in indices) == (set i | i in m && m[i] in prev)
  {
    var known := set i | i in m && m[i] in prev;
    var all := set x | x in indices;
    forall i ensures i in all <==> i in known {
      assert i in all <==> i in indices;
    }
  }

  lemma SkippedAreKnown(client: seq<ClientFile>, prev: seq<TorrentFile>, next: seq<TorrentFile>, m: Mapping, indices: seq<int>)
    requires Fits(client, next, m)
    requires forall i :: i in indices <==> i in m && m[i] in InBoth(prev, next)
    ensures forall i :: i in indices <==> i in m && m[i] in prev
  {
    hide *;
    FitsCoversManifest(client, next, m);
    InBothMembers(prev, next);
    forall i | i in m ensures m[i] in InBoth(prev, next) <==> m[i] in prev {}
  }

  lemma SplitKeys(m: Mapping, prev: seq<TorrentFile>)
    ensures |set i | i in m && m[i] !in prev| == |m| - |set i | i in m && m[i] in prev|
  {
    var known := set i | i in m && m[i] in prev;
    var wanted := set i | i in m && m[i] !in prev;
    assert known + wanted == m.Keys && known !! wanted;
    assert |m.Keys| == |m|;
  }

  lemma KnownOfFitting(client: seq<ClientFile>, prev: seq<TorrentFile>, next: seq<TorrentFile>, m: Mapping)
    requires Fits(client, next, m)
    ensures |set i | i in m && m[i] in prev| == |InBoth(prev, next)|
  {
    var files := Normalise(client);
    var layout := if IsPairing(files, next, Verbatim, m) then Verbatim else Rooted(RootOf(files));
    var es := Entries(files, layout);
    KnownIndices(prev, es, m);
    InBothCountsBag(prev, FilesOf(es), next);
  }
}
