/**
 * torrentmeta: the content files of a decoded .torrent, without BEP 47 padding.
 */
module TorrentFiles {
  import opened Common
  import opened Numerals
  import opened Bencode
  import opened TorrentLayout
  import opened ClientFolder

  datatype FilesError =
    | NotADictionary | NoInfo | EntryNotADictionary | EntryWithoutPath | EntryWithoutLength
    | SingleFileInvalid | V2Only | NeitherFilesNorLength

  function StringAt(m: map<Bytes, Value>, key: Bytes): Option<Bytes> {
    if key in m && m[key].StrValue? then Some(m[key].s) else None
  }

  predicate AllStrings(items: seq<Value>) {
    forall i | 0 <= i < |items| :: items[i].StrValue?
  }

  function Strings(items: seq<Value>): (r: seq<Bytes>)
    requires AllStrings(items)
    ensures |r| == |items|
    ensures forall i | 0 <= i < |items| :: r[i] == items[i].s
  {
    seq(|items|, i requires 0 <= i < |items| => items[i].s)
  }

  /** A usable path list under `key`: non-empty and all strings. */
  function PartsAt(entry: map<Bytes, Value>, key: Bytes): seq<Bytes> {
    if key in entry && entry[key].ListValue? && AllStrings(entry[key].items)
    then Strings(entry[key].items) else []
  }

  function PathOf(entry: map<Bytes, Value>): seq<Bytes> {
    var utf8 := PartsAt(entry, "path.utf-8");
    if utf8 != [] then utf8 else PartsAt(entry, "path")
  }

  function Join(parts: seq<Bytes>): Bytes {
    if parts == [] then []
    else if |parts| == 1 then parts[0]
    else parts[0] + ['/'] + Join(parts[1..])
  }

  /** The padding path BEP 47 gives: `.pad` and at least one more component. */
  predicate PaddingParts(parts: seq<Bytes>) {
    |parts| > 1 && parts[0] == ".pad"
  }

  /** The entry carries BEP 47's padding attribute. */
  predicate MarkedPadding(entry: map<Bytes, Value>) {
    var attr := StringAt(entry, "attr");
    attr.Some? && 'p' in attr.value
  }

  predicate IsPadding(entry: map<Bytes, Value>, parts: seq<Bytes>) {
    MarkedPadding(entry) || PaddingParts(parts)
  }

  /** One entry of info.files: a content file, padding (None), or a refusal. */
  function FileOf(raw: Value): Result<Option<TorrentFile>, FilesError> {
    if !raw.DictValue? then Err(EntryNotADictionary)
    else
      var parts := PathOf(raw.entries);
      if parts == [] then Err(EntryWithoutPath)
      else if IsPadding(raw.entries, parts) then Ok(None)
      else if "length" in raw.entries && raw.entries["length"].IntValue? && raw.entries["length"].n >= 0
      then Ok(Some(TorrentFile(Join(parts), raw.entries["length"].n)))
      else Err(EntryWithoutLength)
  }

  /** Every entry is acceptable. */
  predicate Listable(list: seq<Value>) {
    forall i | 0 <= i < |list| :: FileOf(list[i]).Ok?
  }

  function ContentOf(list: seq<Value>): seq<TorrentFile>
    requires Listable(list)
  {
    if list == [] then []
    else
      assert FileOf(list[|list| - 1]).Ok?;
      var last := FileOf(list[|list| - 1]).value;
      ContentOf(list[..|list| - 1]) + if last.Some? then [last.value] else []
  }

  lemma ListableNext(list: seq<Value>, i: nat)
    requires i < |list| && Listable(list[..i])
    ensures FileOf(list[i]).Err? ==> !Listable(list)
    ensures FileOf(list[i]).Ok? ==>
              && Listable(list[..i + 1])
              && ContentOf(list[..i + 1])
                   == ContentOf(list[..i]) + (if FileOf(list[i]).value.Some? then [FileOf(list[i]).value.value] else [])
  {
    hide FileOf;
    var more := list[..i + 1];
    assert more[..i] == list[..i];
    if FileOf(list[i]).Ok? {
      forall j | 0 <= j < i + 1 ensures FileOf(more[j]).Ok? {
        if j < i { assert more[j] == list[..i][j]; }
      }
    }
  }

  method ListFiles(list: seq<Value>) returns (r: Result<seq<TorrentFile>, FilesError>)
    ensures r.Ok? <==> Listable(list)
    ensures r.Ok? ==> r.value == ContentOf(list)
    ensures r.Err? ==> exists i :: 0 <= i < |list| && Listable(list[..i]) && FileOf(list[i]) == Err(r.error)
  {
    var out: seq<TorrentFile> := [];
    for i := 0 to |list|
      invariant Listable(list[..i]) && out == ContentOf(list[..i])
    {
      hide FileOf;
      ListableNext(list, i);
      var file := FileOf(list[i]);
      match file
      case Err(e) => return Err(e);
      case Ok(f) =>
        if f.Some? { out := out + [f.value]; }
    }
    assert list[..|list|] == list;
    return Ok(out);
  }

  /** The first of two string values that is there and not empty. */
  function FirstString(m: map<Bytes, Value>, key: Bytes, other: Bytes): (s: Bytes)
    ensures s == "" <==> (forall k | k in {key, other} :: StringAt(m, k).None? || StringAt(m, k).value == "")
    ensures s != "" ==> Some(s) == if StringAt(m, key).Some? && StringAt(m, key).value != "" then StringAt(m, key) else StringAt(m, other)
  {
    var first, second := StringAt(m, key), StringAt(m, other);
    if first.Some? && first.value != "" then first.value else if second.Some? then second.value else ""
  }

  predicate HasInfo(root: Value) { root.DictValue? && "info" in root.entries && root.entries["info"].DictValue? }

  function Info(root: Value): map<Bytes, Value>
    requires HasInfo(root)
  {
    root.entries["info"].entries
  }

  predicate IsMultiFile(info: map<Bytes, Value>) { "files" in info && info["files"].ListValue? }

  predicate IsSingleFile(info: map<Bytes, Value>) { "length" in info && info["length"].IntValue? }

  /** The content files of a torrent the decoder accepted as `root`. */
  method Files(root: Value) returns (r: Result<seq<TorrentFile>, FilesError>)
    ensures r == Err(NotADictionary) <==> !root.DictValue?
    ensures r == Err(NoInfo) <==> root.DictValue? && !HasInfo(root)
    // A multi-file torrent: its content files, or the first entry that is not acceptable.
    ensures HasInfo(root) && IsMultiFile(Info(root)) ==>
              var list := Info(root)["files"].items;
              if Listable(list) then r == Ok(ContentOf(list))
              else r.Err? && exists i :: 0 <= i < |list| && Listable(list[..i]) && FileOf(list[i]) == Err(r.error)
    // A single-file torrent: the one file under its name, or a refusal.
    ensures HasInfo(root) && !IsMultiFile(Info(root)) && IsSingleFile(Info(root)) ==>
              var name, size := FirstString(Info(root), "name.utf-8", "name"), Info(root)["length"].n;
              r == if name != "" && size >= 0 then Ok([TorrentFile(name, size)]) else Err(SingleFileInvalid)
    // Neither: the v2 form, or nothing known.
    ensures HasInfo(root) && !IsMultiFile(Info(root)) && !IsSingleFile(Info(root)) ==>
              r == Err(if "file tree" in Info(root) then V2Only else NeitherFilesNorLength)
  {
    if !root.DictValue? { return Err(NotADictionary); }
    if !("info" in root.entries && root.entries["info"].DictValue?) { return Err(NoInfo); }
    var info := root.entries["info"].entries;
    if "files" in info && info["files"].ListValue? {
      r := ListFiles(info["files"].items);
      return;
    }
    if "length" in info && info["length"].IntValue? {
      var name := FirstString(info, "name.utf-8", "name");
      if name == "" || info["length"].n < 0 { return Err(SingleFileInvalid); }
      return Ok([TorrentFile(name, info["length"].n)]);
    }
    return if "file tree" in info then Err(V2Only) else Err(NeitherFilesNorLength);
  }

  // ---- what makes an entry a file ---------------------------------------------------------

  /** The components of a path, as the torrent holds them. */
  function Texts(parts: seq<Bytes>): (r: seq<Value>)
    ensures |r| == |parts| && forall i | 0 <= i < |r| :: r[i] == StrValue(parts[i])
  {
    seq(|parts|, i requires 0 <= i < |parts| => StrValue(parts[i]))
  }

  predicate Holds(entry: map<Bytes, Value>, key: Bytes, parts: seq<Bytes>) {
    parts != [] && key in entry && entry[key] == ListValue(Texts(parts))
  }

  /** The entry's path: the UTF-8 one, or the other when there is no such. */
  ghost predicate Names(entry: map<Bytes, Value>, parts: seq<Bytes>) {
    || Holds(entry, "path.utf-8", parts)
    || (Holds(entry, "path", parts) && forall other :: !Holds(entry, "path.utf-8", other))
  }

  /** `attr` has a p in it, or the path is `.pad` and something below it. */
  predicate Pads(entry: map<Bytes, Value>, parts: seq<Bytes>) {
    || ("attr" in entry && entry["attr"].StrValue? && exists k :: 0 <= k < |entry["attr"].s| && entry["attr"].s[k] == 'p')
    || (|parts| >= 2 && parts[0] == ".pad")
  }

  lemma PartsExactly(entry: map<Bytes, Value>, key: Bytes, parts: seq<Bytes>)
    requires parts != []
    ensures PartsAt(entry, key) == parts <==> Holds(entry, key, parts)
  {
    if PartsAt(entry, key) == parts { assert entry[key].items == Texts(parts); }
    if Holds(entry, key, parts) { assert Strings(entry[key].items) == parts; }
  }

  lemma PathExactly(entry: map<Bytes, Value>)
    ensures forall parts | parts != [] :: PathOf(entry) == parts <==> Names(entry, parts)
    ensures PathOf(entry) == [] <==> forall parts :: !Names(entry, parts)
  {
    hide PartsAt, Holds;
    forall key, parts: seq<Bytes> | parts != [] ensures PartsAt(entry, key) == parts <==> Holds(entry, key, parts) {
      PartsExactly(entry, key, parts);
    }
    forall key, parts | Holds(entry, key, parts) ensures parts != [] { HeldIsSome(entry, key, parts); }
    var utf8 := PartsAt(entry, "path.utf-8");
    if utf8 != [] { assert Holds(entry, "path.utf-8", utf8); }
    if PathOf(entry) != [] { assert Names(entry, PathOf(entry)); }
  }

  lemma HeldIsSome(entry: map<Bytes, Value>, key: Bytes, parts: seq<Bytes>)
    requires Holds(entry, key, parts)
    ensures parts != []
  {}

  /** Paths are joined with one slash between components. */
  lemma {:induction false} JoinParts(a: seq<Bytes>, b: seq<Bytes>)
    ensures forall x :: Join([x]) == x
    ensures a != [] && b != [] ==> Join(a + b) == Join(a) + "/" + Join(b)
    decreases |a|
  {
    if |a| > 1 && b != [] {
      JoinParts(a[1..], b);
      assert (a + b)[1..] == a[1..] + b;
    } else if a != [] && b != [] {
      assert (a + b)[1..] == b && (a + b)[0] == a[0];
    }
  }

  /**
   * An entry is a content file exactly when it is a dictionary with a path that does not
   * pad and a length that is not negative; padding exactly when its path or attribute says
   * so, whatever its length; and otherwise refused for what it lacks.
   */
  lemma FileOfExactly(raw: Value, f: TorrentFile)
    ensures FileOf(raw) == Err(EntryNotADictionary) <==> !raw.DictValue?
    ensures FileOf(raw) == Err(EntryWithoutPath) <==> raw.DictValue? && forall parts :: !Names(raw.entries, parts)
    ensures FileOf(raw) == Ok(None) <==> raw.DictValue? && exists parts :: Names(raw.entries, parts) && Pads(raw.entries, parts)
    ensures FileOf(raw) == Ok(Some(f)) <==>
              && raw.DictValue? && "length" in raw.entries && raw.entries["length"] == IntValue(f.size) && f.size >= 0
              && exists parts :: Names(raw.entries, parts) && !Pads(raw.entries, parts) && f.path == Join(parts)
    ensures FileOf(raw) == Err(EntryWithoutLength) <==>
              && raw.DictValue? && !("length" in raw.entries && raw.entries["length"].IntValue? && raw.entries["length"].n >= 0)
              && exists parts :: Names(raw.entries, parts) && !Pads(raw.entries, parts)
  {
    hide PathOf, Names, Join, IsPadding, Pads;
    if raw.DictValue? {
      PathExactly(raw.entries);
      NamesSome(raw.entries);
      PadsExactly(raw.entries, PathOf(raw.entries));
    }
  }

  lemma NamesSome(entry: map<Bytes, Value>)
    ensures forall parts | Names(entry, parts) :: parts != []
  {
    hide Holds;
    forall parts | Names(entry, parts) ensures parts != [] {
      if Holds(entry, "path.utf-8", parts) { HeldIsSome(entry, "path.utf-8", parts); } else { HeldIsSome(entry, "path", parts); }
    }
  }

  lemma PadsExactly(entry: map<Bytes, Value>, parts: seq<Bytes>)
    ensures IsPadding(entry, parts) <==> Pads(entry, parts)
  {}

  // ---- padding, recognised twice ------------------------------------------------------

  lemma JoinStart(parts: seq<Bytes>)
    requires parts != []
    ensures parts[0] <= Join(parts)
    ensures |parts| > 1 ==> parts[0] + ['/'] <= Join(parts)
  {}

  /**
   * The decoder goes by the attribute and the components, the layouts by the joined
   * path alone. A marked entry is recognised twice exactly when its path says so
   * too; an unmarked one exactly unless its first component itself starts with
   * `.pad/`, which only a component with a slash in it can.
   */
  lemma PaddingAgreesExactly(entry: map<Bytes, Value>, parts: seq<Bytes>)
    requires parts != []
    ensures (IsPadding(entry, parts) <==> IsPaddingPath(Join(parts)))
       <==> if MarkedPadding(entry) then PaddingParts(parts) || ".pad/" <= parts[0] else !(".pad/" <= parts[0])
  {
    hide MarkedPadding;
    JoinStart(parts);
    if |parts| > 1 {
      PaddedStart(parts[0], Join(parts));
    } else {
      LongerThanPad(parts[0]);
    }
  }

  lemma LongerThanPad(u: Bytes)
    ensures IsPaddingPath(u) <==> ".pad/" <= u
  {}

  lemma PaddedStart(u: Bytes, p: Bytes)
    requires u + ['/'] <= p
    ensures IsPaddingPath(p) <==> u == ".pad" || ".pad/" <= u
  {
    assert p[..|u| + 1] == u + ['/'];
    assert p[|u|] == (u + ['/'])[|u|];
    if |u| < 4 {
      assert ".pad/"[|u|] != '/';
    } else if |u| == 4 {
      assert p[..5] == u + ['/'] && (u + ['/'])[..4] == u;
      assert ".pad/" == ".pad" + ['/'] && ".pad/"[..4] == ".pad";
    } else {
      assert p[..5] == (u + ['/'])[..5] == u[..5];
    }
  }

  /** A manifest entry the layouts would call padding can never be paired. */
  lemma PaddingEntryFitsNothing(client: seq<ClientFile>, manifest: seq<TorrentFile>, f: TorrentFile, m: Mapping)
    requires f in manifest && IsPaddingPath(f.path)
    ensures !Fits(client, manifest, m)
  {
    var files := Normalise(client);
    if Fits(client, manifest, m) {
      var layout := if IsPairing(files, manifest, Verbatim, m) then Verbatim else Rooted(RootOf(files));
      var es := Entries(files, layout);
      assert f in multiset(manifest);
      assert f in FilesOf(es);
      var k :| 0 <= k < |es| && FilesOf(es)[k] == f;
      EntriesAreContent(files, layout, k);
    }
  }

  lemma {:induction false} EntriesAreContent(files: seq<ClientFile>, layout: Layout, k: nat)
    requires k < |Entries(files, layout)|
    ensures !IsPaddingPath(Entries(files, layout)[k].file.path)
    decreases |files|
  {
    var head := files[..|files| - 1];
    if k < |Entries(head, layout)| { EntriesAreContent(head, layout, k); }
  }

  // ---- what a disagreement costs -----------------------------------------------------------

  /** The name of an acceptable entry's file, padding or not. */
  function NameOf(raw: Value): Bytes
    requires FileOf(raw).Ok?
  {
    Join(PathOf(raw.entries))
  }

  /** Both recognitions agree on the entry. */
  predicate SamePadding(raw: Value)
    requires FileOf(raw).Ok?
  {
    FileOf(raw).value.None? <==> IsPaddingPath(NameOf(raw))
  }

  /**
   * The client lists every file of the torrent, padding files too: one file for each
   * entry, read under the layout as the entry's own path, content files at their size.
   */
  predicate ListsAll(files: seq<ClientFile>, list: seq<Value>, layout: Layout) {
    && |files| == |list| && Listable(list)
    && (forall i, j | 0 <= i < j < |files| :: files[i].index != files[j].index)
    && forall k | 0 <= k < |files| :: ListsOne(files[k], list[k], layout)
  }

  predicate ListsOne(c: ClientFile, raw: Value, layout: Layout) {
    && FileOf(raw).Ok? && MapPath(layout, c.path) == Some(NameOf(raw))
    && (FileOf(raw).value.Some? ==> c.size == FileOf(raw).value.value.size)
  }

  lemma ListsAllPrefix(files: seq<ClientFile>, list: seq<Value>, layout: Layout, n: nat)
    requires ListsAll(files, list, layout) && n <= |files|
    ensures ListsAll(files[..n], list[..n], layout)
  {
    hide ListsOne, FileOf;
    forall k | 0 <= k < n ensures ListsOne(files[..n][k], list[..n][k], layout) {
      assert ListsOne(files[k], list[k], layout);
    }
    forall k | 0 <= k < n ensures FileOf(list[..n][k]).Ok? { assert list[..n][k] == list[k]; }
  }

  /** What one listed file is read as, against what the entry is worth. */
  lemma OneRead(c: ClientFile, raw: Value, layout: Layout)
    requires ListsOne(c, raw, layout)
    ensures |EntryOf(c, layout)| == if IsPaddingPath(NameOf(raw)) then 0 else 1
    ensures SamePadding(raw) ==>
              FilesOf(EntryOf(c, layout)) == if FileOf(raw).value.Some? then [FileOf(raw).value.value] else []
  {
    if FileOf(raw).value.Some? { ContentName(raw); }
  }

  lemma ContentName(raw: Value)
    requires FileOf(raw).Ok? && FileOf(raw).value.Some?
    ensures FileOf(raw).value.value.path == NameOf(raw)
  {}

  lemma LastRead(files: seq<ClientFile>, list: seq<Value>, layout: Layout)
    requires ListsAll(files, list, layout) && files != []
    ensures var n := |files| - 1;
      && ListsAll(files[..n], list[..n], layout) && ListsOne(files[n], list[n], layout)
      && ContentOf(list) == ContentOf(list[..n]) + (if FileOf(list[n]).value.Some? then [FileOf(list[n]).value.value] else [])
      && FilesOf(Entries(files, layout)) == FilesOf(Entries(files[..n], layout)) + FilesOf(EntryOf(files[n], layout))
  {
    hide ListsOne, FileOf, EntryOf;
    ListsAllPrefix(files, list, layout, |files| - 1);
  }

  /** Where the recognitions agree throughout, the client's list reads as the manifest. */
  lemma {:induction false} AllReadSame(files: seq<ClientFile>, list: seq<Value>, layout: Layout)
    requires ListsAll(files, list, layout) && forall k | 0 <= k < |list| :: SamePadding(list[k])
    ensures FilesOf(Entries(files, layout)) == ContentOf(list)
    decreases |files|
  {
    hide ListsOne, FileOf, EntryOf, SamePadding, FilesOf;
    if files == [] {
      NothingRead(list, layout);
    } else {
      var n := |files| - 1;
      LastRead(files, list, layout);
      SamePrefix(list, n);
      AllReadSame(files[..n], list[..n], layout);
      OneRead(files[n], list[n], layout);
    }
  }

  lemma NothingRead(list: seq<Value>, layout: Layout)
    requires list == []
    ensures FilesOf(Entries([], layout)) == ContentOf(list)
  {}

  lemma SamePrefix(list: seq<Value>, n: nat)
    requires Listable(list) && n <= |list| && forall k | 0 <= k < |list| :: SamePadding(list[k])
    ensures Listable(list[..n]) && forall k | 0 <= k < n :: SamePadding(list[..n][k])
  {
    hide SamePadding, FileOf;
    forall k | 0 <= k < n ensures FileOf(list[..n][k]).Ok? && SamePadding(list[..n][k]) { assert list[..n][k] == list[k]; }
  }

  /** A padding file the paths do not show is one entry too many. */
  lemma {:induction false} MarkedIsTooMany(files: seq<ClientFile>, list: seq<Value>, layout: Layout)
    requires ListsAll(files, list, layout)
    requires forall k | 0 <= k < |list| :: IsPaddingPath(NameOf(list[k])) ==> FileOf(list[k]).value.None?
    ensures |Entries(files, layout)| >= |ContentOf(list)|
    ensures |Entries(files, layout)| == |ContentOf(list)| ==> forall k | 0 <= k < |list| :: SamePadding(list[k])
    decreases |files|
  {
    hide ListsOne, FileOf, EntryOf, FilesOf, NameOf;
    if files != [] {
      var n := |files| - 1;
      LastRead(files, list, layout);
      OneRead(files[n], list[n], layout);
      forall k | 0 <= k < n ensures list[..n][k] == list[k] {}
      MarkedIsTooMany(files[..n], list[..n], layout);
    }
  }

  lemma {:induction false} IndicesFromFiles(files: seq<ClientFile>, layout: Layout, k: nat)
    requires k < |Entries(files, layout)|
    ensures exists j :: 0 <= j < |files| && files[j].index == Entries(files, layout)[k].index
    decreases |files|
  {
    hide MapPath, IsPaddingPath;
    var n := |files| - 1;
    if k < |Entries(files[..n], layout)| {
      IndicesFromFiles(files[..n], layout, k);
      var j :| 0 <= j < n && files[..n][j].index == Entries(files[..n], layout)[k].index;
      assert files[j].index == Entries(files, layout)[k].index;
    } else {
      assert files[n].index == Entries(files, layout)[k].index;
    }
  }

  lemma {:induction false} IndicesStayDistinct(files: seq<ClientFile>, layout: Layout)
    requires forall i, j | 0 <= i < j < |files| :: files[i].index != files[j].index
    ensures DistinctIndices(Entries(files, layout))
    decreases |files|
  {
    hide MapPath, IsPaddingPath;
    if files != [] {
      var n := |files| - 1;
      var head, last := Entries(files[..n], layout), EntryOf(files[n], layout);
      IndicesStayDistinct(files[..n], layout);
      forall k | 0 <= k < |head| ensures head[k].index != files[n].index { IndicesFromFiles(files[..n], layout, k); }
      assert |last| <= 1 && (last != [] ==> last[0].index == files[n].index);
      assert Entries(files, layout) == head + last;
    }
  }

  /** A content file whose path reads as padding is in the manifest but in no reading. */
  lemma ContentReadAsPadding(files: seq<ClientFile>, list: seq<Value>, layout: Layout, k: nat)
    requires ListsAll(files, list, layout) && k < |list| && FileOf(list[k]).value.Some? && IsPaddingPath(NameOf(list[k]))
    ensures !OneToOne(files, ContentOf(list), layout)
  {
    hide FileOf, ListsOne, NameOf, Readable, DistinctIndices;
    var f, es := FileOf(list[k]).value.value, Entries(files, layout);
    ContentName(list[k]);
    ContentIsListed(list, k);
    if OneToOne(files, ContentOf(list), layout) {
      assert f in multiset(ContentOf(list)) && f in FilesOf(es);
      var j :| 0 <= j < |es| && FilesOf(es)[j] == f;
      EntriesAreContent(files, layout, j);
    }
  }

  lemma {:induction false} ContentIsListed(list: seq<Value>, k: nat)
    requires Listable(list) && k < |list| && FileOf(list[k]).value.Some?
    ensures FileOf(list[k]).value.value in ContentOf(list)
    decreases |list|
  {
    hide FileOf;
    var n := |list| - 1;
    if k < n {
      forall j | 0 <= j < n ensures FileOf(list[..n][j]).Ok? { assert list[..n][j] == list[j]; }
      ContentIsListed(list[..n], k);
    }
  }

  /**
   * A client that lists every file of a torrent matches it, under the layout it uses,
   * exactly when the two recognitions of padding agree on every entry.
   */
  lemma ListedAllMatchesExactly(files: seq<ClientFile>, list: seq<Value>, layout: Layout)
    requires ListsAll(files, list, layout)
    ensures OneToOne(files, ContentOf(list), layout) <==> forall k | 0 <= k < |list| :: SamePadding(list[k])
  {
    hide FileOf, ListsOne, NameOf, EntryOf, DistinctIndices, FilesOf;
    ListedIsReadable(files, list, layout);
    IndicesStayDistinct(files, layout);
    if forall k | 0 <= k < |list| :: SamePadding(list[k]) { AllReadSame(files, list, layout); }
    if OneToOne(files, ContentOf(list), layout) {
      forall k | 0 <= k < |list| && IsPaddingPath(NameOf(list[k])) ensures FileOf(list[k]).value.None? {
        if FileOf(list[k]).value.Some? { ContentReadAsPadding(files, list, layout, k); }
      }
      BagSize(FilesOf(Entries(files, layout)), ContentOf(list));
      MarkedIsTooMany(files, list, layout);
    }
  }

  /** So where they agree, and no path has a backslash, the client's list has a mapping. */
  lemma ListedAllMaps(files: seq<ClientFile>, list: seq<Value>, layout: Layout)
    requires ListsAll(files, list, layout) && NoBackslashes(files)
    requires layout == Verbatim || layout == Rooted(RootOf(files))
    requires forall k | 0 <= k < |list| :: SamePadding(list[k])
    ensures Fits(files, ContentOf(list), MappingOf(Entries(files, layout)))
  {
    hide FileOf, ListsOne, NameOf, EntryOf, DistinctIndices, FilesOf, SamePadding, OneToOne, Fits;
    ListedAllMatchesExactly(files, list, layout);
    NormaliseKeeps(files);
    OneToOneFits(files, ContentOf(list), layout);
  }

  lemma ListedIsReadable(files: seq<ClientFile>, list: seq<Value>, layout: Layout)
    requires ListsAll(files, list, layout)
    ensures Readable(files, layout)
  {
    hide FileOf, NameOf, MapPath;
    forall k | 0 <= k < |files| ensures MapPath(layout, files[k].path).Some? { assert ListsOne(files[k], list[k], layout); }
  }

  /** A file that neither layout reads as padding or as an entry of the manifest spoils the whole list. */
  lemma UnknownFileFitsNothing(client: seq<ClientFile>, manifest: seq<TorrentFile>, k: nat, m: Mapping)
    requires k < |client|
    requires Unknown(Normalise(client)[k], manifest, Verbatim)
    requires Unknown(Normalise(client)[k], manifest, Rooted(RootOf(Normalise(client))))
    ensures !Fits(client, manifest, m)
  {
    hide Unknown, OneToOne;
    var files := Normalise(client);
    UnknownIsNotOneToOne(files, manifest, Verbatim, k);
    UnknownIsNotOneToOne(files, manifest, Rooted(RootOf(files)), k);
  }

  predicate Unknown(c: ClientFile, manifest: seq<TorrentFile>, layout: Layout) {
    match MapPath(layout, c.path)
    case None => true
    case Some(p) => !IsPaddingPath(p) && TorrentFile(p, c.size) !in manifest
  }

  lemma UnknownIsNotOneToOne(files: seq<ClientFile>, manifest: seq<TorrentFile>, layout: Layout, k: nat)
    requires k < |files| && Unknown(files[k], manifest, layout)
    ensures !OneToOne(files, manifest, layout)
  {
    hide DistinctIndices, Readable, Entries;
    match MapPath(layout, files[k].path)
    case None => assert !Readable(files, layout) by { NoReading(files, layout, k); }
    case Some(p) =>
      var f := TorrentFile(p, files[k].size);
      ReadFileListed(files, layout, k, f);
      assert multiset(FilesOf(Entries(files, layout)))[f] > 0 && multiset(manifest)[f] == 0;
  }

  lemma NoReading(files: seq<ClientFile>, layout: Layout, k: nat)
    requires k < |files| && MapPath(layout, files[k].path).None?
    ensures !Readable(files, layout)
  {}

  lemma ReadFileListed(files: seq<ClientFile>, layout: Layout, k: nat, f: TorrentFile)
    requires k < |files| && EntryOf(files[k], layout) == [Entry(files[k].index, f)]
    ensures f in FilesOf(Entries(files, layout))
  {
    hide MapPath, IsPaddingPath;
    ReadNext(files, layout, k);
    var es, n := Entries(files, layout), |Entries(files[..k], layout)|;
    assert es[n] == Entry(files[k].index, f);
    assert FilesOf(es)[n] == f;
  }

  // ---- the inputs that show it ------------------------------------------------------------------

  function FileEntry(name: Bytes, length: int, marked: bool): Value {
    var entry: map<Bytes, Value> := map["path" := ListValue([StrValue(name)]), "length" := IntValue(length)];
    DictValue(if marked then entry["attr" := StrValue("p")] else entry)
  }

  lemma FileEntryIs(name: Bytes, length: nat, marked: bool)
    ensures FileOf(FileEntry(name, length, marked)) == Ok(if marked then None else Some(TorrentFile(name, length)))
    ensures NameOf(FileEntry(name, length, marked)) == name
  {
    var entry := FileEntry(name, length, marked).entries;
    assert Strings(entry["path"].items) == [name];
    assert PartsAt(entry, "path.utf-8") == [] && PathOf(entry) == [name];
  }

  lemma NameHasNoRoot(p: string, root: string)
    requires '/' !in p
    ensures MapPath(Rooted(root), p).None?
  {}

  /** Marked as padding under an ordinary name, and listed by the client: the whole torrent is refused. */
  lemma MarkedFileRefused(m: Mapping)
    ensures var list := [FileEntry("x", 5, true), FileEntry("y", 7, false)];
      var client := [ClientFile(0, "x", 5), ClientFile(1, "y", 7)];
      && ListsAll(client, list, Verbatim) && !SamePadding(list[0])
      && ContentOf(list) == [TorrentFile("y", 7)] && !Fits(client, ContentOf(list), m)
  {
    hide FileOf, FileEntry, NameOf, Fits;
    var list := [FileEntry("x", 5, true), FileEntry("y", 7, false)];
    var client := [ClientFile(0, "x", 5), ClientFile(1, "y", 7)];
    FileEntryIs("x", 5, true);
    FileEntryIs("y", 7, false);
    assert list[..1] == [list[0]] && list[..1][..0] == [];
    var c := Normalise(client)[0];
    assert c.path == "x" && "x"[0] != "y"[0] && '/' !in c.path;
    NameHasNoRoot(c.path, RootOf(Normalise(client)));
    assert Unknown(c, ContentOf(list), Verbatim);
    UnknownFileFitsNothing(client, ContentOf(list), 0, m);
  }

  /** One component that itself begins with `.pad/`: kept as content, and read as padding by every layout. */
  lemma SlashedComponentRefused(m: Mapping)
    ensures var list := [FileEntry(".pad/0", 5, false)];
      var client := [ClientFile(0, ".pad/0", 5)];
      && ListsAll(client, list, Verbatim) && !SamePadding(list[0])
      && ContentOf(list) == [TorrentFile(".pad/0", 5)] && !Fits(client, ContentOf(list), m)
  {
    hide FileOf, FileEntry, NameOf, Fits;
    var list := [FileEntry(".pad/0", 5, false)];
    var client := [ClientFile(0, ".pad/0", 5)];
    FileEntryIs(".pad/0", 5, false);
    assert list[..0] == [];
    assert ".pad/0"[..5] == ".pad/";
    PaddingEntryFitsNothing(client, ContentOf(list), TorrentFile(".pad/0", 5), m);
  }
}
