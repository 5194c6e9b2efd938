/**
 * torrentmeta: the top folder a client shows a torrent under, and what a
 * rename of that folder leaves unchanged.
 */
module ClientFolder {
  import opened Common
  import opened TorrentLayout

  /**
   * The client shows the torrent under the folder `root`: every path sits in
   * it and, with it removed, the list is the manifest. No manifest, no root.
   */
  ghost predicate ShowsRoot(files: seq<ClientFile>, manifest: Option<seq<TorrentFile>>, root: string) {
    && files != [] && manifest.Some?
    && root == RootOf(files)
    && OneToOne(files, manifest.value, Rooted(root))
  }

  method ClientRoot(files: seq<ClientFile>, manifest: Option<seq<TorrentFile>>) returns (r: Option<string>)
    ensures r.Some? ==> ShowsRoot(files, manifest, r.value)
    ensures r.None? ==> forall root :: !ShowsRoot(files, manifest, root)
  {
    if files == [] || manifest.None? {
      return None;
    }
    var root := RootOf(files);
    for i := 0 to |files|
      invariant forall j | 0 <= j < i :: MapPath(Rooted(root), files[j].path).Some?
    {
      if MapPath(Rooted(root), files[i].path).None? {
        return None;
      }
    }
    var pairing := Bijection(files, manifest.value, Rooted(root));
    return if pairing.Some? then Some(root) else None;
  }

  // ---- every one-to-one reading has a pairing -----------------------------------

  function MappingOf(es: seq<Entry>): Mapping {
    if es == [] then map[]
    else
      var last := es[|es| - 1];
      MappingOf(es[..|es| - 1])[last.index := last.file]
  }

  lemma {:induction false} MappingOfPairs(es: seq<Entry>)
    requires DistinctIndices(es)
    ensures Pairs(es, MappingOf(es))
    decreases |es|
  {
    if es != [] {
      var head, last := es[..|es| - 1], es[|es| - 1];
      MappingOfPairs(head);
      if last.index in MappingOf(head) {
        DuplicateIndex(head, MappingOf(head), last, head + [last]);
      }
      PairsAppend(head, MappingOf(head), last, MappingOf(es));
      assert es == head + [last];
    }
  }

  predicate NoBackslashes(files: seq<ClientFile>) {
    forall i | 0 <= i < |files| :: '\\' !in files[i].path
  }

  lemma NormaliseKeeps(files: seq<ClientFile>)
    requires NoBackslashes(files)
    ensures Normalise(files) == files
  {
    forall i | 0 <= i < |files| ensures Normalise(files)[i] == files[i] {
      assert ReplaceBackslashes(files[i].path) == files[i].path;
    }
  }

  /**
   * For paths free of backslashes a client root is also a layout: the list has
   * exactly one fitting mapping, the one read under that root.
   */
  lemma RootIsLayout(files: seq<ClientFile>, manifest: seq<TorrentFile>, root: string, m: Mapping)
    requires NoBackslashes(files)
    requires ShowsRoot(files, Some(manifest), root)
    ensures Fits(files, manifest, m) <==> m == MappingOf(Entries(files, Rooted(root)))
  {
    NormaliseKeeps(files);
    MappingOfPairs(Entries(files, Rooted(root)));
    if Fits(files, manifest, m) {
      FitsUnique(files, manifest, m, MappingOf(Entries(files, Rooted(root))));
    }
  }

  // ---- renaming the root -----------------------------------------------------------

  /** The client's list after its top folder `root` is renamed to `name`. */
  function Renamed(files: seq<ClientFile>, root: string, name: string): (r: seq<ClientFile>)
    requires forall i | 0 <= i < |files| :: |root| <= |files[i].path|
    ensures |r| == |files|
    ensures forall i | 0 <= i < |files| :: r[i] == files[i].(path := name + files[i].path[|root|..])
  {
    seq(|files|, i requires 0 <= i < |files| => files[i].(path := name + files[i].path[|root|..]))
  }

  lemma RenamedPath(p: string, root: string, name: string)
    requires MapPath(Rooted(root), p).Some?
    requires name != "" && '/' !in name
    ensures |root| <= |p| && SlashAt(p) == |root| && p[..|root|] == root
    ensures SlashAt(name + p[|root|..]) == |name|
    ensures MapPath(Rooted(name), name + p[|root|..]) == MapPath(Rooted(root), p)
  {
    var q := name + p[|root|..];
    assert p[..SlashAt(p)] == root;
    assert q[|name|] == p[|root|] == '/';
    assert q[..|name|] == name;
    SlashIs(q, |name|);
    assert q[|name| + 1..] == p[|root| + 1..];
  }

  lemma {:induction false} RenamedEntries(files: seq<ClientFile>, root: string, name: string)
    requires Readable(files, Rooted(root))
    requires forall i | 0 <= i < |files| :: |root| <= |files[i].path|
    requires name != "" && '/' !in name
    ensures Entries(Renamed(files, root, name), Rooted(name)) == Entries(files, Rooted(root))
    decreases |files|
  {
    if files != [] {
      var n := |files| - 1;
      RenamedEntries(files[..n], root, name);
      assert Renamed(files, root, name)[..n] == Renamed(files[..n], root, name);
      RenamedPath(files[n].path, root, name);
    }
  }

  lemma RootLengths(files: seq<ClientFile>, root: string)
    requires Readable(files, Rooted(root))
    ensures forall i | 0 <= i < |files| :: |root| <= |files[i].path|
  {}

  /**
   * Renaming the shared top folder changes the root the client shows to the new
   * name and leaves the index-to-file mapping identical.
   */
  lemma RenameKeepsMapping(files: seq<ClientFile>, manifest: seq<TorrentFile>, root: string, name: string, m: Mapping)
    requires NoBackslashes(files)
    requires ShowsRoot(files, Some(manifest), root)
    requires name != "" && '/' !in name && '\\' !in name
    ensures forall i | 0 <= i < |files| :: |root| <= |files[i].path|
    ensures ShowsRoot(Renamed(files, root, name), Some(manifest), name)
    ensures Fits(files, manifest, m) <==> Fits(Renamed(files, root, name), manifest, m)
  {
    RootLengths(files, root);
    var renamed := Renamed(files, root, name);
    RenamedEntries(files, root, name);
    forall i | 0 <= i < |renamed|
      ensures MapPath(Rooted(name), renamed[i].path).Some? && '\\' !in renamed[i].path
    {
      RenamedPath(files[i].path, root, name);
      assert '\\' !in files[i].path[|root|..];
    }
    RenamedPath(files[0].path, root, name);
    assert renamed[0].path[..|name|] == name;
    RootIsLayout(files, manifest, root, m);
    RootIsLayout(renamed, manifest, name, m);
  }

  // ---- exactly when a client root is also a layout -----------------------------------
  //
  // ClientRoot reads paths as the client wrote them, MapClientFiles reads them
  // with backslashes turned into slashes, so the two can disagree.

  function Rest(root: string, p: string): string
    requires MapPath(Rooted(root), p).Some?
  {
    MapPath(Rooted(root), p).value
  }

  lemma RootedPath(root: string, p: string)
    requires MapPath(Rooted(root), p).Some?
    ensures p == root + "/" + Rest(root, p) && Rest(root, p) != ""
  {
    var k := SlashAt(p);
    assert p == p[..k] + [p[k]] + p[k + 1..];
  }

  lemma NormalisedConcat(a: string, b: string)
    ensures ReplaceBackslashes(a + b) == ReplaceBackslashes(a) + ReplaceBackslashes(b)
  {}

  lemma NormalisedClean(p: string)
    ensures '\\' !in ReplaceBackslashes(p)
    ensures '\\' !in p ==> ReplaceBackslashes(p) == p
    ensures '\\' in p ==> '/' in ReplaceBackslashes(p)
  {
    if '\\' in p {
      var i :| 0 <= i < |p| && p[i] == '\\';
      assert ReplaceBackslashes(p)[i] == '/';
    }
  }

  /** Padding below a folder `u` is decided by `u` alone. */
  lemma PaddingBelow(u: string, v: string)
    ensures IsPaddingPath(u + "/" + v) <==> IsPaddingPath(u + "/")
  {
    var p := u + "/" + v;
    if |u| >= 4 {
      assert p[..5] == (u + "/")[..5];
    } else {
      assert p[|u|] == (u + "/")[|u|] == '/' && ".pad/"[|u|] != '/';
    }
  }

  /** Every path of the normalised list is read by `layout` as something below `u`. */
  ghost predicate ReadsBelow(files: seq<ClientFile>, root: string, layout: Layout, u: string) {
    && Readable(files, Rooted(root))
    && forall i | 0 <= i < |files| ::
         MapPath(layout, Normalise(files)[i].path) == Some(u + "/" + ReplaceBackslashes(Rest(root, files[i].path)))
  }

  lemma BelowIsLongerStep(c: ClientFile, n: ClientFile, root: string, layout: Layout, u: string)
    requires MapPath(Rooted(root), c.path).Some?
    requires MapPath(layout, n.path) == Some(u + "/" + ReplaceBackslashes(Rest(root, c.path)))
    ensures IsPaddingPath(u + "/") ==> EntryOf(n, layout) == []
    ensures !IsPaddingPath(u + "/") ==>
              TotalLength(FilesOf(EntryOf(c, Rooted(root)))) < TotalLength(FilesOf(EntryOf(n, layout)))
  {
    PaddingBelow(u, ReplaceBackslashes(Rest(root, c.path)));
    assert FilesOf(EntryOf(c, Rooted(root)))[..0] == [];
    if !IsPaddingPath(u + "/") {
      assert FilesOf(EntryOf(n, layout))[..0] == [];
    }
  }

  lemma ReadsBelowPrefix(files: seq<ClientFile>, root: string, layout: Layout, u: string)
    requires ReadsBelow(files, root, layout, u) && files != []
    ensures ReadsBelow(files[..|files| - 1], root, layout, u)
  {
    hide MapPath, Rest, ReplaceBackslashes;
    var head := files[..|files| - 1];
    forall i | 0 <= i < |head|
      ensures MapPath(Rooted(root), head[i].path).Some?
      ensures MapPath(layout, Normalise(head)[i].path) == Some(u + "/" + ReplaceBackslashes(Rest(root, head[i].path)))
    {
      assert Normalise(head)[i] == Normalise(files)[i] && head[i] == files[i];
    }
  }

  /** Such a reading finds either no content at all or strictly longer paths. */
  lemma {:induction false} BelowIsLonger(files: seq<ClientFile>, root: string, layout: Layout, u: string)
    requires ReadsBelow(files, root, layout, u)
    ensures IsPaddingPath(u + "/") ==> Entries(Normalise(files), layout) == []
    ensures !IsPaddingPath(u + "/") ==>
              TotalLength(FilesOf(Entries(files, Rooted(root)))) + |files|
                <= TotalLength(FilesOf(Entries(Normalise(files), layout)))
    decreases |files|
  {
    hide MapPath, EntryOf, TotalLength, IsPaddingPath;
    if files != [] {
      var n := |files| - 1;
      assert Normalise(files)[..n] == Normalise(files[..n]);
      ReadsBelowPrefix(files, root, layout, u);
      BelowIsLonger(files[..n], root, layout, u);
      EntriesLength(files, Rooted(root));
      EntriesLength(Normalise(files), layout);
      BelowIsLongerStep(files[n], Normalise(files)[n], root, layout, u);
    }
  }

  lemma NormalisedPath(p: string, root: string)
    requires MapPath(Rooted(root), p).Some?
    ensures ReplaceBackslashes(p) == ReplaceBackslashes(root) + "/" + ReplaceBackslashes(Rest(root, p))
  {
    hide ReplaceBackslashes, Rest;
    RootedPath(root, p);
    NormalisedParts(p, root, Rest(root, p));
  }

  lemma NormalisedParts(p: string, root: string, rest: string)
    requires p == root + "/" + rest
    ensures ReplaceBackslashes(p) == ReplaceBackslashes(root) + "/" + ReplaceBackslashes(rest)
  {
    hide ReplaceBackslashes;
    NormalisedConcat(root + "/", rest);
    NormalisedConcat(root, "/");
    NormalisedSlash();
  }

  lemma NormalisedSlash()
    ensures ReplaceBackslashes("/") == "/"
  {}

  /** A slash at `k` inside the normalised root: rooted readings keep the rest of that root. */
  lemma SplitRoot(p: string, clean: string, rest: string, k: nat)
    requires k < |clean| && k == SlashAt(clean) && k > 0 && p == clean + "/" + rest
    ensures SlashAt(p) == k && MapPath(Rooted(clean[..k]), p) == Some(clean[k + 1..] + "/" + rest)
  {
    assert p[..k] == clean[..k] && p[k] == clean[k];
    SlashIs(p, k);
    assert p[k + 1..] == clean[k + 1..] + "/" + rest;
  }

  /** Under a client root every normalised path is the normalised root and the rest below it. */
  lemma ReadsBelowRoot(files: seq<ClientFile>, root: string)
    requires Readable(files, Rooted(root))
    ensures ReadsBelow(files, root, Verbatim, ReplaceBackslashes(root))
  {
    hide ReplaceBackslashes, Rest;
    forall i | 0 <= i < |files|
      ensures Normalise(files)[i].path == ReplaceBackslashes(root) + "/" + ReplaceBackslashes(Rest(root, files[i].path))
    {
      NormalisedPath(files[i].path, root);
    }
  }

  /**
   * A backslash in the root becomes a slash: what stands before the first one is the
   * only root the normalised list can have, and it has it unless nothing stands there.
   */
  lemma ReadsBelowRootTail(files: seq<ClientFile>, root: string)
    requires files != [] && Readable(files, Rooted(root)) && '\\' in root
    ensures var clean, norm := ReplaceBackslashes(root), Normalise(files);
      var k := SlashAt(clean);
      && k < |clean| && RootOf(norm) == clean[..k]
      && (Readable(norm, Rooted(RootOf(norm))) <==> k > 0)
      && (k > 0 ==> ReadsBelow(files, root, Rooted(clean[..k]), clean[k + 1..]))
  {
    hide ReplaceBackslashes, Rest;
    var clean, norm := ReplaceBackslashes(root), Normalise(files);
    NormalisedClean(root);
    SlashExists(clean);
    var k := SlashAt(clean);
    ReadsBelowRoot(files, root);
    assert norm[0].path == clean + "/" + ReplaceBackslashes(Rest(root, files[0].path));
    SlashInside(norm[0].path, clean, ReplaceBackslashes(Rest(root, files[0].path)));
    if k > 0 {
      forall i | 0 <= i < |files|
        ensures MapPath(Rooted(clean[..k]), norm[i].path)
             == Some(clean[k + 1..] + "/" + ReplaceBackslashes(Rest(root, files[i].path)))
      {
        assert norm[i].path == clean + "/" + ReplaceBackslashes(Rest(root, files[i].path));
        SplitRoot(norm[i].path, clean, ReplaceBackslashes(Rest(root, files[i].path)), k);
      }
    } else {
      assert MapPath(Rooted(RootOf(norm)), norm[0].path).None?;
    }
  }

  /** A backslash in the root: no layout can pair the list with a non-empty manifest. */
  lemma BackslashRootFitsNothing(files: seq<ClientFile>, manifest: seq<TorrentFile>, root: string, m: Mapping)
    requires ShowsRoot(files, Some(manifest), root) && manifest != [] && '\\' in root
    ensures !Fits(files, manifest, m)
  {
    hide ReplaceBackslashes, ReadsBelow, MapPath;
    var clean, norm := ReplaceBackslashes(root), Normalise(files);
    ReadsBelowRoot(files, root);
    LongerFitsNothing(files, manifest, root, Verbatim, clean, m);
    ReadsBelowRootTail(files, root);
    if Readable(norm, Rooted(RootOf(norm))) {
      var k := SlashAt(clean);
      LongerFitsNothing(files, manifest, root, Rooted(clean[..k]), clean[k + 1..], m);
    }
  }

  /** A root that normalises to `.pad`, or to something below it, or below one more folder. */
  predicate PaddedRoot(root: string) {
    var below := ReplaceBackslashes(root) + "/";
    var k := SlashAt(below);
    IsPaddingPath(below) || (0 < k && k + 1 < |below| && IsPaddingPath(below[k + 1..]))
  }

  /** Read below u, a list is one to one with nothing exactly when all of it is padding. */
  lemma BelowMatchesNothing(files: seq<ClientFile>, root: string, layout: Layout, u: string)
    requires files != [] && ReadsBelow(files, root, layout, u)
    ensures OneToOne(Normalise(files), [], layout) <==> IsPaddingPath(u + "/")
  {
    hide IsPaddingPath, EntryOf, TotalLength;
    BelowIsLonger(files, root, layout, u);
    var es := Entries(Normalise(files), layout);
    assert Readable(Normalise(files), layout) by { BelowIsReadable(files, root, layout, u); }
    BagSize(FilesOf(es), []);
    NoLength();
    if es == [] { assert FilesOf(es) == []; }
  }

  lemma NoLength()
    ensures TotalLength([]) == 0
  {}

  lemma BelowIsReadable(files: seq<ClientFile>, root: string, layout: Layout, u: string)
    requires ReadsBelow(files, root, layout, u)
    ensures Readable(Normalise(files), layout)
  {
    hide MapPath, Rest, ReplaceBackslashes;
  }

  /** A root with a backslash over an empty manifest: a layout exactly when the root is padded. */
  lemma BackslashRootOverNothing(files: seq<ClientFile>, root: string)
    requires ShowsRoot(files, Some([]), root) && '\\' in root
    ensures (exists m :: Fits(files, [], m)) <==> PaddedRoot(root)
  {
    hide ReplaceBackslashes, ReadsBelow, MapPath, IsPaddingPath, OneToOne, Rest;
    var clean, norm := ReplaceBackslashes(root), Normalise(files);
    ShownIsReadable(files, [], root);
    ReadsBelowRoot(files, root);
    BelowMatchesNothing(files, root, Verbatim, clean);
    ReadsBelowRootTail(files, root);
    var k := SlashAt(clean);
    PaddedTail(clean, k);
    if k > 0 {
      BelowMatchesNothing(files, root, Rooted(clean[..k]), clean[k + 1..]);
    } else {
      NotReadable(norm, [], Rooted(RootOf(norm)));
    }
    OneToOneFits(files, [], Verbatim);
    OneToOneFits(files, [], Rooted(RootOf(norm)));
    if m :| Fits(files, [], m) { assert OneToOne(norm, [], Verbatim) || OneToOne(norm, [], Rooted(RootOf(norm))); }
  }

  lemma ShownIsReadable(files: seq<ClientFile>, manifest: seq<TorrentFile>, root: string)
    requires ShowsRoot(files, Some(manifest), root)
    ensures files != [] && Readable(files, Rooted(root))
  {}

  lemma PaddedTail(clean: string, k: nat)
    requires k == SlashAt(clean) && k < |clean|
    ensures var below := clean + "/";
      SlashAt(below) == k && k + 1 < |below| && below[k + 1..] == clean[k + 1..] + "/"
  {
    SlashInside(clean + "/" + "", clean, "");
    assert clean + "/" + "" == clean + "/";
  }

  /** A one-to-one reading of the normalised list gives it a fitting mapping. */
  lemma OneToOneFits(files: seq<ClientFile>, manifest: seq<TorrentFile>, layout: Layout)
    requires layout == Verbatim || layout == Rooted(RootOf(Normalise(files)))
    ensures OneToOne(Normalise(files), manifest, layout)
            ==> Fits(files, manifest, MappingOf(Entries(Normalise(files), layout)))
  {
    if OneToOne(Normalise(files), manifest, layout) { MappingOfPairs(Entries(Normalise(files), layout)); }
  }

  lemma SlashInside(p: string, clean: string, rest: string)
    requires SlashAt(clean) < |clean| && p == clean + "/" + rest
    ensures SlashAt(p) == SlashAt(clean) && p[..SlashAt(p)] == clean[..SlashAt(clean)]
  {
    var k := SlashAt(clean);
    assert p[..k] == clean[..k] && p[k] == clean[k];
    SlashIs(p, k);
  }

  lemma SlashExists(p: string)
    requires '/' in p
    ensures SlashAt(p) < |p|
  {
    assert p[..|p|] == p;
  }

  lemma LongerFitsNothing(files: seq<ClientFile>, manifest: seq<TorrentFile>, root: string, layout: Layout, u: string, m: Mapping)
    requires ShowsRoot(files, Some(manifest), root) && manifest != []
    requires ReadsBelow(files, root, layout, u)
    ensures !IsPairing(Normalise(files), manifest, layout, m)
  {
    var there, here := FilesOf(Entries(Normalise(files), layout)), FilesOf(Entries(files, Rooted(root)));
    BelowIsLonger(files, root, layout, u);
    if multiset(there) == multiset(manifest) {
      BagSize(there, manifest);
      TotalLengthOfBag(there, here);
    }
  }

  lemma {:induction false} NormalisedEntriesClean(files: seq<ClientFile>, layout: Layout)
    ensures CleanFiles(Entries(Normalise(files), layout))
    decreases |files|
  {
    if files != [] {
      var n := |files| - 1;
      assert Normalise(files)[..n] == Normalise(files[..n]);
      NormalisedEntriesClean(files[..n], layout);
      NormalisedClean(files[n].path);
      CleanParts(Entries(Normalise(files[..n]), layout), EntryOf(Normalise(files)[n], layout));
    }
  }

  lemma CleanManifest(files: seq<ClientFile>, manifest: seq<TorrentFile>, layout: Layout)
    requires OneToOne(Normalise(files), manifest, layout)
    ensures forall f | f in manifest :: '\\' !in f.path
  {
    NormalisedEntriesClean(files, layout);
    var es := Entries(Normalise(files), layout);
    forall f | f in manifest ensures '\\' !in f.path {
      assert f in multiset(manifest);
      assert f in FilesOf(es);
      var k :| 0 <= k < |es| && FilesOf(es)[k] == f;
    }
  }

  predicate CleanFiles(es: seq<Entry>) {
    forall k | 0 <= k < |es| :: '\\' !in es[k].file.path
  }

  lemma CleanParts(a: seq<Entry>, b: seq<Entry>)
    ensures CleanFiles(a + b) <==> CleanFiles(a) && CleanFiles(b)
  {
    if CleanFiles(a + b) {
      forall k | 0 <= k < |b| ensures '\\' !in b[k].file.path {
        assert b[k] == (a + b)[|a| + k];
      }
      forall k | 0 <= k < |a| ensures '\\' !in a[k].file.path {
        assert a[k] == (a + b)[k];
      }
    }
  }

  /** With a clean root, normalising changes no entry whose path is clean. */
  lemma {:induction false} CleanEntries(files: seq<ClientFile>, root: string)
    requires Readable(files, Rooted(root)) && '\\' !in root
    requires CleanFiles(Entries(files, Rooted(root)))
    ensures Entries(Normalise(files), Rooted(root)) == Entries(files, Rooted(root))
    decreases |files|
  {
    hide MapPath, EntryOf, CleanFiles;
    if files != [] {
      var n := |files| - 1;
      assert Normalise(files)[..n] == Normalise(files[..n]);
      CleanParts(Entries(files[..n], Rooted(root)), EntryOf(files[n], Rooted(root)));
      CleanEntries(files[..n], root);
      CleanEntry(files[n], Normalise(files)[n], root);
    }
  }

  lemma CleanReadable(files: seq<ClientFile>, root: string)
    requires Readable(files, Rooted(root)) && '\\' !in root
    ensures Readable(Normalise(files), Rooted(root))
  {
    forall i | 0 <= i < |files| ensures MapPath(Rooted(root), Normalise(files)[i].path).Some? {
      CleanPath(files[i].path, root);
    }
  }

  lemma CleanPath(p: string, root: string)
    requires MapPath(Rooted(root), p).Some? && '\\' !in root
    ensures MapPath(Rooted(root), ReplaceBackslashes(p)) == Some(ReplaceBackslashes(Rest(root, p)))
  {
    var n := ReplaceBackslashes(p);
    var rest := ReplaceBackslashes(Rest(root, p));
    NormalisedPath(p, root);
    NormalisedClean(root);
    assert n == root + "/" + rest;
    assert SlashAt(p) == |root| && p[..|root|] == root;
    assert n[..|root|] == root && n[|root|] == '/';
    SlashIs(n, |root|);
    assert n[|root| + 1..] == rest;
    RootedPath(root, p);
  }

  lemma CleanEntry(c: ClientFile, n: ClientFile, root: string)
    requires MapPath(Rooted(root), c.path).Some? && '\\' !in root
    requires n == c.(path := ReplaceBackslashes(c.path))
    requires CleanFiles(EntryOf(c, Rooted(root)))
    ensures EntryOf(n, Rooted(root)) == EntryOf(c, Rooted(root))
  {
    var rest := Rest(root, c.path);
    CleanPath(c.path, root);
    if IsPaddingPath(rest) {
      assert ReplaceBackslashes(rest)[..5] == rest[..5];
    } else {
      assert EntryOf(c, Rooted(root))[0].file.path == rest;
      NormalisedClean(rest);
    }
  }

  /**
   * A client root is also a layout exactly when neither that root nor any of the
   * torrent's own paths has a backslash, or the torrent has no content file and its
   * root, normalised, puts everything into a padding folder.
   */
  lemma RootIsLayoutExactly(files: seq<ClientFile>, manifest: seq<TorrentFile>, root: string)
    requires ShowsRoot(files, Some(manifest), root)
    ensures (exists m :: Fits(files, manifest, m))
       <==> || ('\\' !in root && forall f | f in manifest :: '\\' !in f.path)
            || (manifest == [] && PaddedRoot(root))
  {
    hide PaddedRoot, OneToOne, IsPairing;
    if '\\' in root && manifest == [] {
      BackslashRootOverNothing(files, root);
    } else {
      if m :| Fits(files, manifest, m) {
        if '\\' in root { BackslashRootFitsNothing(files, manifest, root, m); }
        FitsCleanManifest(files, manifest, m);
      }
      if '\\' !in root && forall f | f in manifest :: '\\' !in f.path { CleanRootFits(files, manifest, root); }
    }
  }

  lemma FitsCleanManifest(files: seq<ClientFile>, manifest: seq<TorrentFile>, m: Mapping)
    requires Fits(files, manifest, m)
    ensures forall f | f in manifest :: '\\' !in f.path
  {
    var norm := Normalise(files);
    CleanManifest(files, manifest, if IsPairing(norm, manifest, Verbatim, m) then Verbatim else Rooted(RootOf(norm)));
  }

  lemma CleanRootFits(files: seq<ClientFile>, manifest: seq<TorrentFile>, root: string)
    requires ShowsRoot(files, Some(manifest), root)
    requires '\\' !in root && forall f | f in manifest :: '\\' !in f.path
    ensures exists m :: Fits(files, manifest, m)
  {
    hide MapPath, EntryOf;
    var es := Entries(files, Rooted(root));
    forall k | 0 <= k < |es| ensures '\\' !in es[k].file.path {
      assert FilesOf(es)[k] in multiset(FilesOf(es));
      assert es[k].file in multiset(manifest);
    }
    CleanEntries(files, root);
    CleanReadable(files, root);
    NormalisedRoot(files, root);
    MappingOfPairs(es);
    assert Fits(files, manifest, MappingOf(es));
  }

  /** One file whose name holds a backslash: the client shows its folder, and no layout fits. */
  lemma BackslashNameRefused(m: Mapping)
    ensures var client, manifest := [ClientFile(0, "Root/a\\b", 7)], [TorrentFile("a\\b", 7)];
      ShowsRoot(client, Some(manifest), "Root") && !Fits(client, manifest, m)
  {
    hide *;
    var client, manifest := [ClientFile(0, "Root/a\\b", 7)], [TorrentFile("a\\b", 7)];
    BackslashName();
    OneFileShown("Root", "a\\b", 7);
    assert manifest[0] in manifest;
    if Fits(client, manifest, m) { FitsCleanManifest(client, manifest, m); }
  }

  lemma BackslashName()
    ensures "Root" + "/" + "a\\b" == "Root/a\\b"
    ensures '\\' in "a\\b" && '/' !in "Root" && !IsPaddingPath("a\\b")
  {
    assert "a\\b"[1] == '\\';
  }

  lemma OneFileShown(root: string, p: string, size: int)
    requires root != "" && '/' !in root && p != "" && !IsPaddingPath(p)
    ensures ShowsRoot([ClientFile(0, root + "/" + p, size)], Some([TorrentFile(p, size)]), root)
  {
    var c := ClientFile(0, root + "/" + p, size);
    SlashIs(c.path, |root|);
    assert c.path[..|root|] == root && c.path[|root| + 1..] == p;
    assert EntryOf(c, Rooted(root)) == [Entry(0, TorrentFile(p, size))];
    assert [c][..0] == [] && Entries([c], Rooted(root)) == [Entry(0, TorrentFile(p, size))];
    assert FilesOf([Entry(0, TorrentFile(p, size))]) == [TorrentFile(p, size)];
  }

  lemma NormalisedRoot(files: seq<ClientFile>, root: string)
    requires files != [] && Readable(Normalise(files), Rooted(root))
    ensures RootOf(Normalise(files)) == root
  {
    assert MapPath(Rooted(root), Normalise(files)[0].path).Some?;
  }
}
