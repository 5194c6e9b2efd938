/**
 * torrentmeta: laying a torrent client's file list over the torrent's own list.
 *
 * A client shows a torrent either with the torrent's own paths or under one top
 * folder. Exactly one reading of the whole list is chosen, and only when it
 * pairs the two lists one to one.
 */
module TorrentLayout {
  import opened Common

  /** A content file of the torrent. */
  datatype TorrentFile = TorrentFile(path: string, size: int)

  /** A file as the client lists it, under the client's own index. */
  datatype ClientFile = ClientFile(index: int, path: string, size: int)

  /** A client index paired with the content file it was read as. */
  datatype Entry = Entry(index: int, file: TorrentFile)

  datatype Layout = Verbatim | Rooted(root: string)

  datatype LayoutError = NoLayout | TwoLayouts

  type Mapping = map<int, TorrentFile>

  // ---- paths ---------------------------------------------------------------

  /** Position of the first slash, or |p| when there is none. */
  function SlashAt(p: string): (i: nat)
    ensures i <= |p|
    ensures i < |p| ==> p[i] == '/'
    ensures '/' !in p[..i]
  {
    if p == "" || p[0] == '/' then 0
    else
      var i := 1 + SlashAt(p[1..]);
      assert p[..i] == [p[0]] + p[1..][..i - 1];
      i
  }

  lemma {:induction false} SlashIs(p: string, k: nat)
    requires k < |p| && p[k] == '/' && '/' !in p[..k]
    ensures SlashAt(p) == k
    decreases k
  {
    if k > 0 {
      assert p[0] == p[..k][0];
      assert p[1..][..k - 1] == p[..k][1..];
      SlashIs(p[1..], k - 1);
    }
  }

  function ReplaceBackslashes(p: string): (r: string)
    ensures |r| == |p|
    ensures forall i | 0 <= i < |p| :: r[i] == if p[i] == '\\' then '/' else p[i]
  {
    seq(|p|, i requires 0 <= i < |p| => if p[i] == '\\' then '/' else p[i])
  }

  function Normalise(files: seq<ClientFile>): (r: seq<ClientFile>)
    ensures |r| == |files|
    ensures forall i | 0 <= i < |files| :: r[i] == files[i].(path := ReplaceBackslashes(files[i].path))
  {
    seq(|files|, i requires 0 <= i < |files| => files[i].(path := ReplaceBackslashes(files[i].path)))
  }

  predicate IsPaddingPath(p: string) {
    ".pad/" <= p
  }

  /** The path inside the torrent that a layout reads a client path as. */
  function MapPath(layout: Layout, p: string): Option<string> {
    match layout
    case Verbatim => Some(p)
    case Rooted(root) =>
      var k := SlashAt(p);
      if k == 0 || k + 1 >= |p| || p[..k] != root then None else Some(p[k + 1..])
  }

  /** Below a root is exactly what stands behind it and one slash. */
  lemma RootedExactly(root: string, p: string, rest: string)
    ensures MapPath(Rooted(root), p) == Some(rest) <==> root != "" && '/' !in root && rest != "" && p == root + "/" + rest
  {
    if root != "" && '/' !in root && rest != "" && p == root + "/" + rest {
      assert p[..|root|] == root && p[|root|] == '/' && p[|root| + 1..] == rest;
      SlashIs(p, |root|);
    }
    if MapPath(Rooted(root), p) == Some(rest) {
      var k := SlashAt(p);
      assert p == p[..k] + [p[k]] + p[k + 1..];
    }
  }

  /** The root every client path has to share: the first path's first component. */
  function RootOf(files: seq<ClientFile>): string {
    if files == [] then "" else files[0].path[..SlashAt(files[0].path)]
  }

  // ---- what a one-to-one reading is -----------------------------------------

  predicate Readable(files: seq<ClientFile>, layout: Layout) {
    forall i | 0 <= i < |files| :: MapPath(layout, files[i].path).Some?
  }

  /** The content entries a layout reads out of a client list, in list order. */
  function Entries(files: seq<ClientFile>, layout: Layout): seq<Entry> {
    if files == [] then []
    else
      var c := files[|files| - 1];
      Entries(files[..|files| - 1], layout) + EntryOf(c, layout)
  }

  function EntryOf(c: ClientFile, layout: Layout): seq<Entry> {
    match MapPath(layout, c.path)
    case Some(p) => if IsPaddingPath(p) then [] else [Entry(c.index, TorrentFile(p, c.size))]
    case None => []
  }

  function FilesOf(es: seq<Entry>): (r: seq<TorrentFile>)
    ensures |r| == |es|
    ensures forall i | 0 <= i < |es| :: r[i] == es[i].file
  {
    seq(|es|, i requires 0 <= i < |es| => es[i].file)
  }

  predicate DistinctIndices(es: seq<Entry>) {
    forall i, j | 0 <= i < j < |es| :: es[i].index != es[j].index
  }

  /** The mapping `m` holds exactly the pairs of `es`. */
  ghost predicate Pairs(es: seq<Entry>, m: Mapping) {
    && (forall k | 0 <= k < |es| :: es[k].index in m && m[es[k].index] == es[k].file)
    && (forall i | i in m :: exists k :: 0 <= k < |es| && es[k].index == i)
  }

  /**
   * The client list, read under `layout`, is the manifest: every path has a
   * reading, no index is used twice, and the content files are the manifest's
   * entries, each used exactly as often as the manifest lists it.
   */
  ghost predicate OneToOne(files: seq<ClientFile>, manifest: seq<TorrentFile>, layout: Layout) {
    && Readable(files, layout)
    && DistinctIndices(Entries(files, layout))
    && multiset(FilesOf(Entries(files, layout))) == multiset(manifest)
  }

  /** `m` is the pairing of client indices with manifest entries under `layout`. */
  ghost predicate IsPairing(files: seq<ClientFile>, manifest: seq<TorrentFile>, layout: Layout, m: Mapping) {
    OneToOne(files, manifest, layout) && Pairs(Entries(files, layout), m)
  }

  lemma PairsUnique(es: seq<Entry>, m: Mapping, n: Mapping)
    requires Pairs(es, m) && Pairs(es, n)
    ensures m == n
  {
    forall i | i in m ensures i in n && n[i] == m[i] {
      var k :| 0 <= k < |es| && es[k].index == i;
    }
    forall i | i in n ensures i in m {
      var k :| 0 <= k < |es| && es[k].index == i;
    }
  }

  lemma {:induction false} EntriesPrefix(files: seq<ClientFile>, layout: Layout, n: nat)
    requires n <= |files|
    ensures Entries(files[..n], layout) <= Entries(files, layout)
    decreases |files|
  {
    if n == |files| {
      assert files[..n] == files;
    } else {
      EntriesPrefix(files[..|files| - 1], layout, n);
      assert files[..|files| - 1][..n] == files[..n];
    }
  }

  lemma FilesOfAppend(es: seq<Entry>, e: Entry)
    ensures FilesOf(es + [e]) == FilesOf(es) + [e.file]
  {}

  function Count(m: map<TorrentFile, nat>, f: TorrentFile): nat {
    if f in m then m[f] else 0
  }

  // ---- bijection -------------------------------------------------------------

  method CountManifest(manifest: seq<TorrentFile>) returns (remaining: map<TorrentFile, nat>)
    ensures forall f :: Count(remaining, f) == multiset(manifest)[f]
  {
    remaining := map[];
    for i := 0 to |manifest|
      invariant forall f :: Count(remaining, f) == multiset(manifest[..i])[f]
    {
      assert manifest[..i + 1] == manifest[..i] + [manifest[i]];
      remaining := remaining[manifest[i] := Count(remaining, manifest[i]) + 1];
    }
    assert manifest[..|manifest|] == manifest;
  }

  /** What the loop of Bijection knows after reading the entries `es`. */
  ghost predicate Taken(es: seq<Entry>, manifest: seq<TorrentFile>, remaining: map<TorrentFile, nat>, out: Mapping) {
    && DistinctIndices(es) && Pairs(es, out) && |out| == |es|
    && forall f :: Count(remaining, f) + multiset(FilesOf(es))[f] == multiset(manifest)[f]
  }

  /** Pairs files with the manifest under one layout, or refuses. */
  method Bijection(files: seq<ClientFile>, manifest: seq<TorrentFile>, layout: Layout)
    returns (r: Option<Mapping>)
    ensures r.Some? <==> OneToOne(files, manifest, layout)
    ensures r.Some? ==> IsPairing(files, manifest, layout, r.value)
  {
    hide Entries, Taken, MapPath, OneToOne, Readable, DistinctIndices, Pairs, FilesOf;
    var remaining := CountManifest(manifest);
    var out: Mapping := map[];
    NothingTaken(files, manifest, layout, remaining);
    for i := 0 to |files|
      invariant Readable(files[..i], layout)
      invariant Taken(Entries(files[..i], layout), manifest, remaining, out)
    {
      var c := files[i];
      ReadNext(files, layout, i);
      ReadableNext(files, layout, i);
      match MapPath(layout, c.path)
      case None =>
        NotReadable(files, manifest, layout);
        return None;
      case Some(p) =>
        if !IsPaddingPath(p) {
          var key := TorrentFile(p, c.size);
          if Count(remaining, key) == 0 {
            Exhausted(files, manifest, layout, i, remaining, out);
            return None;
          }
          if c.index in out {
            Duplicate(files, manifest, layout, i, remaining, out);
            return None;
          }
          TakeEntry(Entries(files[..i], layout), manifest, remaining, out, Entry(c.index, key));
          remaining := remaining[key := remaining[key] - 1];
          out := out[c.index := key];
        }
    }
    assert files[..|files|] == files;
    TakenAll(files, manifest, layout, remaining, out);
    return if |out| == |manifest| then Some(out) else None;
  }

  lemma NothingTaken(files: seq<ClientFile>, manifest: seq<TorrentFile>, layout: Layout, remaining: map<TorrentFile, nat>)
    requires forall f :: Count(remaining, f) == multiset(manifest)[f]
    ensures Readable(files[..0], layout) && Taken(Entries(files[..0], layout), manifest, remaining, map[])
  {}

  lemma NotReadable(files: seq<ClientFile>, manifest: seq<TorrentFile>, layout: Layout)
    requires !Readable(files, layout)
    ensures !OneToOne(files, manifest, layout)
  {}

  /** Every paired file consumed one entry, so as many as the manifest holds is all of them. */
  lemma TakenAll(files: seq<ClientFile>, manifest: seq<TorrentFile>, layout: Layout,
                 remaining: map<TorrentFile, nat>, out: Mapping)
    requires Readable(files, layout) && Taken(Entries(files, layout), manifest, remaining, out)
    ensures |out| == |manifest| <==> OneToOne(files, manifest, layout)
    ensures |out| == |manifest| ==> IsPairing(files, manifest, layout, out)
  {
    hide Entries, MapPath, Pairs;
    var all := FilesOf(Entries(files, layout));
    BagSize(all, manifest);
    if |out| == |manifest| {
      forall f ensures multiset(all)[f] <= multiset(manifest)[f] {
        assert Count(remaining, f) + multiset(all)[f] == multiset(manifest)[f];
      }
      SameSizeBag(all, manifest);
    }
  }

  lemma Duplicate(files: seq<ClientFile>, manifest: seq<TorrentFile>, layout: Layout, i: nat,
                  remaining: map<TorrentFile, nat>, out: Mapping)
    requires i < |files| && |EntryOf(files[i], layout)| == 1
    requires Taken(Entries(files[..i], layout), manifest, remaining, out)
    requires EntryOf(files[i], layout)[0].index in out
    ensures !OneToOne(files, manifest, layout)
  {
    hide Entries, MapPath;
    var es, e := Entries(files[..i], layout), EntryOf(files[i], layout)[0];
    ReadNext(files, layout, i);
    assert es + [e] <= Entries(files, layout);
    DuplicateIndex(es, out, e, Entries(files, layout));
  }

  lemma ReadNext(files: seq<ClientFile>, layout: Layout, i: nat)
    requires i < |files|
    ensures Entries(files[..i + 1], layout) == Entries(files[..i], layout) + EntryOf(files[i], layout)
    ensures EntryOf(files[i], layout) == [] ==> Entries(files[..i + 1], layout) == Entries(files[..i], layout)
    ensures Entries(files[..i + 1], layout) <= Entries(files, layout)
  {
    hide EntryOf;
    assert files[..i + 1][..i] == files[..i];
    EntriesPrefix(files, layout, i + 1);
  }

  lemma ReadableNext(files: seq<ClientFile>, layout: Layout, i: nat)
    requires i < |files| && Readable(files[..i], layout)
    ensures MapPath(layout, files[i].path).Some? ==> Readable(files[..i + 1], layout)
    ensures MapPath(layout, files[i].path).None? ==> !Readable(files, layout)
  {
    assert files[..i + 1] == files[..i] + [files[i]];
    if MapPath(layout, files[i].path).Some? {
      var more := files[..i + 1];
      forall j | 0 <= j < i + 1 ensures MapPath(layout, more[j].path).Some? {
        if j < i { assert more[j] == files[..i][j]; }
      }
    }
  }

  lemma Exhausted(files: seq<ClientFile>, manifest: seq<TorrentFile>, layout: Layout, i: nat,
                  remaining: map<TorrentFile, nat>, out: Mapping)
    requires i < |files| && |EntryOf(files[i], layout)| == 1
    requires Taken(Entries(files[..i], layout), manifest, remaining, out)
    requires Count(remaining, EntryOf(files[i], layout)[0].file) == 0
    ensures !OneToOne(files, manifest, layout)
  {
    var es := Entries(files[..i], layout);
    var e := EntryOf(files[i], layout)[0];
    ReadNext(files, layout, i);
    assert es + [e] <= Entries(files, layout);
    FilesOfAppend(es, e);
    PrefixBag(es + [e], Entries(files, layout), e.file);
    assert multiset(FilesOf(es) + [e.file])[e.file] == multiset(FilesOf(es))[e.file] + 1;
  }

  lemma TakeEntry(es: seq<Entry>, manifest: seq<TorrentFile>, remaining: map<TorrentFile, nat>, out: Mapping, e: Entry)
    requires Taken(es, manifest, remaining, out)
    requires Count(remaining, e.file) > 0 && e.index !in out
    ensures Taken(es + [e], manifest, remaining[e.file := remaining[e.file] - 1], out[e.index := e.file])
  {
    DistinctAppend(es, out, e);
    hide Pairs, FilesOf, DistinctIndices;
    FilesOfAppend(es, e);
    PairsAppend(es, out, e, out[e.index := e.file]);
    var less := remaining[e.file := remaining[e.file] - 1];
    forall f ensures Count(less, f) + multiset(FilesOf(es + [e]))[f] == multiset(manifest)[f] {
      assert Count(remaining, f) + multiset(FilesOf(es))[f] == multiset(manifest)[f];
      assert multiset(FilesOf(es) + [e.file])[f] == multiset(FilesOf(es))[f] + if f == e.file then 1 else 0;
    }
  }

  lemma DistinctAppend(es: seq<Entry>, m: Mapping, e: Entry)
    requires DistinctIndices(es) && Pairs(es, m) && e.index !in m
    ensures DistinctIndices(es + [e])
  {}

  lemma PrefixBag(es: seq<Entry>, all: seq<Entry>, f: TorrentFile)
    requires es <= all
    ensures multiset(FilesOf(es))[f] <= multiset(FilesOf(all))[f]
  {
    assert FilesOf(all) == FilesOf(es) + FilesOf(all[|es|..]);
  }

  lemma DuplicateIndex(es: seq<Entry>, m: Mapping, e: Entry, all: seq<Entry>)
    requires Pairs(es, m) && e.index in m && es + [e] <= all
    ensures !DistinctIndices(all)
  {
    var k :| 0 <= k < |es| && es[k].index == e.index;
    assert all[k] == (es + [e])[k] && all[|es|] == (es + [e])[|es|];
  }

  lemma PairsAppend(es: seq<Entry>, m: Mapping, e: Entry, n: Mapping)
    requires Pairs(es, m) && e.index !in m && n == m[e.index := e.file]
    ensures Pairs(es + [e], n)
  {
    forall i | i in n ensures exists k :: 0 <= k < |es + [e]| && (es + [e])[k].index == i {
      if i == e.index {
        assert (es + [e])[|es|].index == i;
      } else {
        var k :| 0 <= k < |es| && es[k].index == i;
        assert (es + [e])[k].index == i;
      }
    }
  }

  lemma BagSize(a: seq<TorrentFile>, b: seq<TorrentFile>)
    ensures multiset(a) == multiset(b) ==> |a| == |b|
  {
    assert |multiset(a)| == |a| && |multiset(b)| == |b|;
  }

  lemma SameSizeBag(a: seq<TorrentFile>, b: seq<TorrentFile>)
    requires |a| == |b|
    requires forall f :: multiset(a)[f] <= multiset(b)[f]
    ensures multiset(a) == multiset(b)
  {
    var rest := multiset(b) - multiset(a);
    assert multiset(b) == multiset(a) + rest;
    assert |multiset(b)| == |multiset(a)| + |rest|;
    assert |rest| == 0;
  }

  // ---- the two layouts never disagree -----------------------------------------

  function TotalLength(s: seq<TorrentFile>): nat {
    if s == [] then 0 else TotalLength(s[..|s| - 1]) + |s[|s| - 1].path|
  }

  lemma {:induction false} TotalLengthCut(s: seq<TorrentFile>, k: nat)
    requires k < |s|
    ensures TotalLength(s) == TotalLength(s[..k] + s[k + 1..]) + |s[k].path|
    decreases |s|
  {
    var n := |s| - 1;
    if k == n {
      assert s[..k] + s[k + 1..] == s[..n];
    } else {
      TotalLengthCut(s[..n], k);
      var cut := s[..k] + s[k + 1..];
      assert cut[..|cut| - 1] == s[..n][..k] + s[..n][k + 1..];
      assert cut[|cut| - 1] == s[n];
    }
  }

  /** Lists with the same bag of files have the same total path length. */
  lemma {:induction false} TotalLengthOfBag(a: seq<TorrentFile>, b: seq<TorrentFile>)
    requires multiset(a) == multiset(b)
    ensures TotalLength(a) == TotalLength(b)
    decreases |a|
  {
    BagSize(a, b);
    if |a| > 0 {
      var n := |a| - 1;
      var k := RemoveOne(a, b);
      TotalLengthOfBag(a[..n], b[..k] + b[k + 1..]);
      TotalLengthCut(b, k);
    }
  }

  /** The last element of `a` sits at some `k` in `b`; dropping both keeps the bags equal. */
  lemma RemoveOne(a: seq<TorrentFile>, b: seq<TorrentFile>) returns (k: nat)
    requires multiset(a) == multiset(b) && |a| > 0
    ensures k < |b| && b[k] == a[|a| - 1]
    ensures multiset(a[..|a| - 1]) == multiset(b[..k] + b[k + 1..])
  {
    var n := |a| - 1;
    BagWithout(a, n);
    assert a[..n] + a[n + 1..] == a[..n];
    assert a[n] in multiset(a);
    k :| 0 <= k < |b| && b[k] == a[n];
    BagWithout(b, k);
  }

  lemma BagWithout(s: seq<TorrentFile>, k: nat)
    requires k < |s|
    ensures multiset(s[..k] + s[k + 1..]) == multiset(s) - multiset{s[k]}
  {
    assert s == s[..k] + [s[k]] + s[k + 1..];
  }

  lemma TotalLengthAppend(s: seq<TorrentFile>, t: seq<TorrentFile>)
    requires |t| <= 1
    ensures TotalLength(s + t) == TotalLength(s) + TotalLength(t)
  {
    if t == [] {
      assert s + t == s;
    } else {
      assert (s + t)[..|s|] == s;
      assert t[..0] == [];
    }
  }

  lemma EntriesLength(files: seq<ClientFile>, layout: Layout)
    requires files != []
    ensures TotalLength(FilesOf(Entries(files, layout)))
         == TotalLength(FilesOf(Entries(files[..|files| - 1], layout)))
          + TotalLength(FilesOf(EntryOf(files[|files| - 1], layout)))
  {
    var head := Entries(files[..|files| - 1], layout);
    var tail := EntryOf(files[|files| - 1], layout);
    assert FilesOf(head + tail) == FilesOf(head) + FilesOf(tail);
    TotalLengthAppend(FilesOf(head), FilesOf(tail));
  }

  /** A path under `.pad/` is exactly a path whose first component is `.pad`. */
  lemma PaddingRoot(p: string)
    ensures IsPaddingPath(p) <==> SlashAt(p) == 4 && |p| > 4 && p[..4] == ".pad"
  {
    if |p| > 4 {
      assert p[..5] == p[..4] + [p[4]];
      assert ".pad/" == ".pad" + ['/'];
    }
    if IsPaddingPath(p) {
      assert p[..5] == ".pad/";
      assert p[..4] == p[..5][..4] == ".pad" && p[4] == p[..5][4];
      SlashIs(p, 4);
    }
  }

  lemma EntryLengths(c: ClientFile, root: string)
    requires MapPath(Rooted(root), c.path).Some? && root != ".pad"
    ensures TotalLength(FilesOf(EntryOf(c, Rooted(root)))) < TotalLength(FilesOf(EntryOf(c, Verbatim)))
  {
    PaddingRoot(c.path);
    assert EntryOf(c, Verbatim) == [Entry(c.index, TorrentFile(c.path, c.size))];
    assert FilesOf(EntryOf(c, Verbatim))[..0] == [];
    assert FilesOf(EntryOf(c, Rooted(root)))[..0] == [];
  }

  /** Dropping a root that is not `.pad` makes every entry strictly shorter. */
  lemma {:induction false} RootedIsShorter(files: seq<ClientFile>, root: string)
    requires Readable(files, Rooted(root)) && root != ".pad"
    ensures TotalLength(FilesOf(Entries(files, Rooted(root)))) + |files| <= TotalLength(FilesOf(Entries(files, Verbatim)))
    decreases |files|
  {
    if files != [] {
      RootedIsShorter(files[..|files| - 1], root);
      EntriesLength(files, Rooted(root));
      EntriesLength(files, Verbatim);
      EntryLengths(files[|files| - 1], root);
    }
  }

  /** Under a `.pad` root the verbatim reading finds no content at all. */
  lemma {:induction false} PadRootHasNoContent(files: seq<ClientFile>)
    requires Readable(files, Rooted(".pad"))
    ensures Entries(files, Verbatim) == []
    decreases |files|
  {
    if files != [] {
      PadRootHasNoContent(files[..|files| - 1]);
      PaddingRoot(files[|files| - 1].path);
    }
  }

  /**
   * Both readings can be one to one only for an empty torrent: on a non-empty
   * list the shared root must be `.pad` and the manifest empty. The pairings
   * are then equal, so "two layouts" is never the answer.
   */
  lemma LayoutsAgree(files: seq<ClientFile>, manifest: seq<TorrentFile>, root: string, v: Mapping, r: Mapping)
    requires IsPairing(files, manifest, Verbatim, v)
    requires IsPairing(files, manifest, Rooted(root), r)
    ensures v == r == map[] && manifest == []
    ensures files != [] ==> root == ".pad"
  {
    var ve, re := Entries(files, Verbatim), Entries(files, Rooted(root));
    if root == ".pad" {
      PadRootHasNoContent(files);
    } else {
      RootedIsShorter(files, root);
      TotalLengthOfBag(FilesOf(ve), FilesOf(re));
      assert files == [];
    }
    assert ve == [] && FilesOf(ve) == [];
    BagSize(FilesOf(ve), manifest);
    BagSize(FilesOf(re), manifest);
    assert forall i :: i !in v && i !in r;
  }

  // ---- choosing a layout --------------------------------------------------------

  /** `m` pairs the client's list with the manifest under one of the two layouts. */
  ghost predicate Fits(client: seq<ClientFile>, manifest: seq<TorrentFile>, m: Mapping) {
    var files := Normalise(client);
    IsPairing(files, manifest, Verbatim, m) || IsPairing(files, manifest, Rooted(RootOf(files)), m)
  }

  lemma FitsUnique(client: seq<ClientFile>, manifest: seq<TorrentFile>, m: Mapping, n: Mapping)
    requires Fits(client, manifest, m) && Fits(client, manifest, n)
    ensures m == n
  {
    var files := Normalise(client);
    var root := RootOf(files);
    if IsPairing(files, manifest, Verbatim, m) && IsPairing(files, manifest, Rooted(root), n) {
      LayoutsAgree(files, manifest, root, m, n);
    } else if IsPairing(files, manifest, Verbatim, n) && IsPairing(files, manifest, Rooted(root), m) {
      LayoutsAgree(files, manifest, root, n, m);
    } else if IsPairing(files, manifest, Verbatim, n) {
      PairsUnique(Entries(files, Verbatim), m, n);
    } else {
      PairsUnique(Entries(files, Rooted(root)), m, n);
    }
  }

  function PickLayout(verbatim: Option<Mapping>, rooted: Option<Mapping>): Result<Mapping, LayoutError> {
    match (verbatim, rooted)
    case (Some(v), Some(r)) => if v == r then Ok(v) else Err(TwoLayouts)
    case (Some(v), None) => Ok(v)
    case (None, Some(r)) => Ok(r)
    case (None, None) => Err(NoLayout)
  }

  /**
   * The one answer for a client list: the pairing under whichever layout fits.
   * It refuses only when no layout fits; the ambiguous case cannot arise.
   */
  method MapClientFiles(client: seq<ClientFile>, manifest: seq<TorrentFile>)
    returns (r: Result<Mapping, LayoutError>)
    ensures r.Ok? ==> Fits(client, manifest, r.value)
    ensures r.Err? ==> r.error == NoLayout && forall m :: !Fits(client, manifest, m)
  {
    var files := Normalise(client);
    var root := RootOf(files);
    var verbatim := Bijection(files, manifest, Verbatim);
    var rooted := Bijection(files, manifest, Rooted(root));
    if verbatim.Some? && rooted.Some? {
      LayoutsAgree(files, manifest, root, verbatim.value, rooted.value);
    }
    r := PickLayout(verbatim, rooted);
  }

  /** Every client index a fitting mapping names carries a manifest entry, and every entry is named. */
  lemma FitsCoversManifest(client: seq<ClientFile>, manifest: seq<TorrentFile>, m: Mapping)
    requires Fits(client, manifest, m)
    ensures forall i | i in m :: m[i] in manifest
    ensures forall f | f in manifest :: exists i :: i in m && m[i] == f
    ensures |m| == |manifest|
  {
    var files := Normalise(client);
    var layout := if IsPairing(files, manifest, Verbatim, m) then Verbatim else Rooted(RootOf(files));
    var es := Entries(files, layout);
    assert Pairs(es, m);
    forall i | i in m ensures m[i] in manifest {
      var k :| 0 <= k < |es| && es[k].index == i;
      assert FilesOf(es)[k] == m[i];
      assert m[i] in multiset(FilesOf(es));
      assert m[i] in multiset(manifest);
    }
    forall f | f in manifest ensures exists i :: i in m && m[i] == f {
      assert f in multiset(manifest);
      assert f in FilesOf(es);
      var k :| 0 <= k < |es| && FilesOf(es)[k] == f;
      assert m[es[k].index] == f;
    }
    BagSize(FilesOf(es), manifest);
    PairsSize(es, m);
  }

  lemma {:induction false} PairsSize(es: seq<Entry>, m: Mapping)
    requires DistinctIndices(es) && Pairs(es, m)
    ensures |m| == |es|
    decreases |es|
  {
    if es == [] {
      assert forall i :: i !in m;
      assert m == map[];
    } else {
      var last := es[|es| - 1].index;
      PairsDropLast(es, m);
      PairsSize(es[..|es| - 1], m - {last});
      assert last in m;
      assert (m - {last}).Keys == m.Keys - {last};
    }
  }

  lemma PairsDropLast(es: seq<Entry>, m: Mapping)
    requires es != [] && DistinctIndices(es) && Pairs(es, m)
    ensures DistinctIndices(es[..|es| - 1])
    ensures Pairs(es[..|es| - 1], m - {es[|es| - 1].index})
  {
    var head, last := es[..|es| - 1], es[|es| - 1];
    var rest := m - {last.index};
    forall i | i in rest ensures exists k :: 0 <= k < |head| && head[k].index == i {
      var k :| 0 <= k < |es| && es[k].index == i;
      assert head[k].index == i;
    }
  }
}
