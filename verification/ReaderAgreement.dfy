/**
 * The two bencode readers agree: whatever the decoder accepts, the scanner
 * spans exactly, and the span hashed for the infohash is the info dictionary
 * whose files the decoder reports.
 */
module ReaderAgreement {
  import opened Common
  import opened Numerals
  import opened Bencode
  import opened InfoHash

  // ---- the scanner follows the decoder ---------------------------------------------

  lemma StrScanned(data: Bytes, pos: nat)
    requires pos <= |data| <= MAX_INT64 && DecodeStr(data, pos).Ok?
    ensures ScanString(data, pos) == At(DecodeStr(data, pos).value.1)
    ensures KeyAt(data, pos, DecodeStr(data, pos).value.1) == DecodeStr(data, pos).value.0
  {}

  lemma {:induction false} ValueScanned(data: Bytes, pos: nat, depth: nat, count: nat)
    requires pos <= |data| <= MAX_INT64
    requires DecodeValue(data, pos, depth, count).Ok?
    ensures ScanValue(data, pos, depth) == At(DecodeValue(data, pos, depth, count).value.pos)
    decreases |data| - pos, 0
  {
    if data[pos] == 'l' {
      ItemsScanned(data, pos + 1, depth, count + 1, []);
    } else if data[pos] == 'd' {
      PairsScanned(data, pos + 1, depth, count + 1, []);
    } else if IsDigit(data[pos]) {
      StrScanned(data, pos);
    }
  }

  lemma {:induction false} ItemsScanned(data: Bytes, pos: nat, depth: nat, count: nat, out: seq<Value>)
    requires pos <= |data| <= MAX_INT64 && count <= MAX_VALUES
    requires DecodeItems(data, pos, depth, count, out).Ok?
    ensures ScanRest(data, pos, depth, false) == At(DecodeItems(data, pos, depth, count, out).value.pos)
    decreases |data| - pos, 1
  {
    if data[pos] != 'e' {
      var v := DecodeValue(data, pos, depth + 1, count).value;
      ValueScanned(data, pos, depth + 1, count);
      ItemsScanned(data, v.pos, depth, v.count, out + [v.value]);
    }
  }

  lemma {:induction false} PairsScanned(data: Bytes, pos: nat, depth: nat, count: nat, out: seq<Pair>)
    requires pos <= |data| <= MAX_INT64 && count <= MAX_VALUES
    requires DecodePairs(data, pos, depth, count, out).Ok?
    ensures ScanRest(data, pos, depth, true) == At(DecodePairs(data, pos, depth, count, out).value.pos)
    decreases |data| - pos, 1
  {
    if data[pos] != 'e' {
      var k := DecodeStr(data, pos).value;
      var v := DecodeValue(data, k.1, depth + 1, count).value;
      StrScanned(data, pos);
      ValueScanned(data, k.1, depth + 1, count);
      PairsScanned(data, v.pos, depth, v.count, out + [Pair(k.0, v.value)]);
    }
  }

  // ---- a value's meaning is in its own bytes --------------------------------------------
  //
  // Three inductions: the depth and count a value is read at only limit it, the
  // bytes after it do not matter, and neither do the bytes before it.

  /** The same reading with `less` fewer values counted before it. */
  function Fewer<T>(r: Read<T>, less: nat): Result<Read<T>, Error>
    requires less <= r.count
  {
    Ok(Read(r.value, r.pos, r.count - less))
  }

  lemma {:induction false} ValueRelaxed(a: Bytes, p: nat, depth: nat, count: nat, up: nat, less: nat)
    requires p <= |a| && up <= depth && less <= count && DecodeValue(a, p, depth, count).Ok?
    ensures DecodeValue(a, p, depth - up, count - less) == Fewer(DecodeValue(a, p, depth, count).value, less)
    decreases |a| - p, 0
  {
    if a[p] == 'l' {
      ListRelaxed(a, p, depth, count, up, less);
    } else if a[p] == 'd' {
      DictRelaxed(a, p, depth, count, up, less);
    }
  }

  lemma {:induction false} ListRelaxed(a: Bytes, p: nat, depth: nat, count: nat, up: nat, less: nat)
    requires p < |a| && a[p] == 'l' && up <= depth && less <= count && DecodeValue(a, p, depth, count).Ok?
    ensures DecodeValue(a, p, depth - up, count - less) == Fewer(DecodeValue(a, p, depth, count).value, less)
    decreases |a| - p - 1, 2
  {
    ItemsRelaxed(a, p + 1, depth, count + 1, [], up, less);
  }

  lemma {:induction false} DictRelaxed(a: Bytes, p: nat, depth: nat, count: nat, up: nat, less: nat)
    requires p < |a| && a[p] == 'd' && up <= depth && less <= count && DecodeValue(a, p, depth, count).Ok?
    ensures DecodeValue(a, p, depth - up, count - less) == Fewer(DecodeValue(a, p, depth, count).value, less)
    decreases |a| - p - 1, 2
  {
    hide DecodeStr, DecodeInt;
    assert DecodeValue(a, p, depth, count) == AsDict(DecodePairs(a, p + 1, depth, count + 1, []));
    PairsRelaxed(a, p + 1, depth, count + 1, [], up, less);
    assert DecodeValue(a, p, depth - up, count - less)
        == AsDict(DecodePairs(a, p + 1, depth - up, count + 1 - less, []));
  }

  lemma {:induction false} ItemsRelaxed(a: Bytes, p: nat, depth: nat, count: nat, out: seq<Value>, up: nat, less: nat)
    requires p <= |a| && up <= depth && less <= count <= MAX_VALUES && DecodeItems(a, p, depth, count, out).Ok?
    ensures DecodeItems(a, p, depth - up, count - less, out) == Fewer(DecodeItems(a, p, depth, count, out).value, less)
    decreases |a| - p, 1
  {
    if a[p] != 'e' {
      var v := DecodeValue(a, p, depth + 1, count).value;
      ValueRelaxed(a, p, depth + 1, count, up, less);
      ItemsRelaxed(a, v.pos, depth, v.count, out + [v.value], up, less);
    }
  }

  lemma {:induction false} PairsRelaxed(a: Bytes, p: nat, depth: nat, count: nat, out: seq<Pair>, up: nat, less: nat)
    requires p <= |a| && up <= depth && less <= count <= MAX_VALUES && DecodePairs(a, p, depth, count, out).Ok?
    ensures DecodePairs(a, p, depth - up, count - less, out) == Fewer(DecodePairs(a, p, depth, count, out).value, less)
    decreases |a| - p, 1
  {
    if a[p] != 'e' {
      var k := DecodeStr(a, p).value;
      var v := DecodeValue(a, k.1, depth + 1, count).value;
      ValueRelaxed(a, k.1, depth + 1, count, up, less);
      PairsRelaxed(a, v.pos, depth, v.count, out + [Pair(k.0, v.value)], up, less);
    }
  }

  lemma IndexInPrefix(a: Bytes, p: nat, stop: nat, c: Byte)
    requires p <= |a| && IndexByte(a, p, c) < stop <= |a|
    ensures IndexByte(a[..stop], p, c) == IndexByte(a, p, c)
    decreases |a| - p
  {
    if a[p] != c { IndexInPrefix(a, p + 1, stop, c); }
  }

  lemma PrefixSlice(a: Bytes, stop: nat, i: nat, j: nat)
    requires i <= j <= stop <= |a|
    ensures a[..stop][i..j] == a[i..j]
  {}

  lemma SuffixSlice(a: Bytes, k: nat, i: nat, j: nat)
    requires k <= i <= j <= |a|
    ensures a[k..][i - k..j - k] == a[i..j]
  {}

  lemma StrInPrefix(a: Bytes, p: nat, stop: nat)
    requires p <= |a| && DecodeStr(a, p).Ok? && DecodeStr(a, p).value.1 <= stop <= |a|
    ensures DecodeStr(a[..stop], p) == DecodeStr(a, p)
  {
    var i := IndexByte(a, p, ':');
    IndexInPrefix(a, p, stop, ':');
    PrefixSlice(a, stop, p, i);
    PrefixSlice(a, stop, i + 1, DecodeStr(a, p).value.1);
  }

  lemma IntInPrefix(a: Bytes, p: nat, stop: nat)
    requires p < |a| && a[p] == 'i' && DecodeInt(a, p).Ok? && DecodeInt(a, p).value.1 <= stop <= |a|
    ensures DecodeInt(a[..stop], p) == DecodeInt(a, p)
  {
    var i := IndexByte(a, p, 'e');
    IndexInPrefix(a, p, stop, 'e');
    PrefixSlice(a, stop, p + 1, i);
  }

  /** Cutting the data anywhere at or after a value's end does not change the value. */
  lemma {:induction false} ValueInPrefix(a: Bytes, p: nat, depth: nat, count: nat, stop: nat)
    requires p <= |a| && DecodeValue(a, p, depth, count).Ok?
    requires DecodeValue(a, p, depth, count).value.pos <= stop <= |a|
    ensures DecodeValue(a[..stop], p, depth, count) == DecodeValue(a, p, depth, count)
    decreases |a| - p, 0
  {
    if a[p] == 'i' {
      IntInPrefix(a, p, stop);
    } else if a[p] == 'l' {
      ItemsInPrefix(a, p + 1, depth, count + 1, [], stop);
    } else if a[p] == 'd' {
      PairsInPrefix(a, p + 1, depth, count + 1, [], stop);
    } else {
      StrInPrefix(a, p, stop);
    }
  }

  lemma {:induction false} ItemsInPrefix(a: Bytes, p: nat, depth: nat, count: nat, out: seq<Value>, stop: nat)
    requires p <= |a| && count <= MAX_VALUES && DecodeItems(a, p, depth, count, out).Ok?
    requires DecodeItems(a, p, depth, count, out).value.pos <= stop <= |a|
    ensures DecodeItems(a[..stop], p, depth, count, out) == DecodeItems(a, p, depth, count, out)
    decreases |a| - p, 1
  {
    if a[p] != 'e' {
      var v := DecodeValue(a, p, depth + 1, count).value;
      ValueInPrefix(a, p, depth + 1, count, stop);
      ItemsInPrefix(a, v.pos, depth, v.count, out + [v.value], stop);
    }
  }

  lemma {:induction false} PairsInPrefix(a: Bytes, p: nat, depth: nat, count: nat, out: seq<Pair>, stop: nat)
    requires p <= |a| && count <= MAX_VALUES && DecodePairs(a, p, depth, count, out).Ok?
    requires DecodePairs(a, p, depth, count, out).value.pos <= stop <= |a|
    ensures DecodePairs(a[..stop], p, depth, count, out) == DecodePairs(a, p, depth, count, out)
    decreases |a| - p, 1
  {
    if a[p] != 'e' {
      var k := DecodeStr(a, p).value;
      var v := DecodeValue(a, k.1, depth + 1, count).value;
      StrInPrefix(a, p, stop);
      ValueInPrefix(a, k.1, depth + 1, count, stop);
      PairsInPrefix(a, v.pos, depth, v.count, out + [Pair(k.0, v.value)], stop);
    }
  }

  lemma IndexInSuffix(a: Bytes, k: nat, p: nat, c: Byte)
    requires k <= p <= |a|
    ensures IndexByte(a[k..], p - k, c) == IndexByte(a, p, c) - k
    decreases |a| - p
  {
    if p < |a| && a[p] != c { IndexInSuffix(a, k, p + 1, c); }
  }

  lemma StrInSuffix(a: Bytes, k: nat, p: nat)
    requires k <= p <= |a| && DecodeStr(a, p).Ok?
    ensures DecodeStr(a[k..], p - k) == Ok((DecodeStr(a, p).value.0, DecodeStr(a, p).value.1 - k))
  {
    var i, end := IndexByte(a, p, ':'), DecodeStr(a, p).value.1;
    IndexInSuffix(a, k, p, ':');
    SuffixSlice(a, k, p, i);
    SuffixSlice(a, k, i + 1, end);
  }

  lemma IntInSuffix(a: Bytes, k: nat, p: nat)
    requires k <= p < |a| && a[p] == 'i' && DecodeInt(a, p).Ok?
    ensures DecodeInt(a[k..], p - k) == Ok((DecodeInt(a, p).value.0, DecodeInt(a, p).value.1 - k))
  {
    var i := IndexByte(a, p, 'e');
    IndexInSuffix(a, k, p, 'e');
    SuffixSlice(a, k, p + 1, i);
  }

  /** The same reading, `k` bytes further back. */
  function Back<T>(r: Read<T>, k: nat): Result<Read<T>, Error>
    requires k <= r.pos
  {
    Ok(Read(r.value, r.pos - k, r.count))
  }

  lemma {:induction false} ValueInSuffix(a: Bytes, k: nat, p: nat, depth: nat, count: nat)
    requires k <= p <= |a| && DecodeValue(a, p, depth, count).Ok?
    ensures DecodeValue(a[k..], p - k, depth, count) == Back(DecodeValue(a, p, depth, count).value, k)
    decreases |a| - p, 0
  {
    hide DecodeStr, DecodeInt;
    if a[p] == 'i' {
      IntInSuffix(a, k, p);
    } else if a[p] == 'l' {
      ListInSuffix(a, k, p, depth, count);
    } else if a[p] == 'd' {
      DictInSuffix(a, k, p, depth, count);
    } else {
      StrInSuffix(a, k, p);
    }
  }

  lemma {:induction false} ListInSuffix(a: Bytes, k: nat, p: nat, depth: nat, count: nat)
    requires k <= p < |a| && a[p] == 'l' && DecodeValue(a, p, depth, count).Ok?
    ensures DecodeValue(a[k..], p - k, depth, count) == Back(DecodeValue(a, p, depth, count).value, k)
    decreases |a| - p - 1, 2
  {
    hide DecodeStr, DecodeInt;
    assert DecodeValue(a, p, depth, count) == AsList(DecodeItems(a, p + 1, depth, count + 1, []));
    ItemsInSuffix(a, k, p + 1, depth, count + 1, []);
    assert DecodeValue(a[k..], p - k, depth, count) == AsList(DecodeItems(a[k..], p + 1 - k, depth, count + 1, []));
  }

  lemma {:induction false} DictInSuffix(a: Bytes, k: nat, p: nat, depth: nat, count: nat)
    requires k <= p < |a| && a[p] == 'd' && DecodeValue(a, p, depth, count).Ok?
    ensures DecodeValue(a[k..], p - k, depth, count) == Back(DecodeValue(a, p, depth, count).value, k)
    decreases |a| - p - 1, 2
  {
    hide DecodeStr, DecodeInt;
    assert DecodeValue(a, p, depth, count) == AsDict(DecodePairs(a, p + 1, depth, count + 1, []));
    PairsInSuffix(a, k, p + 1, depth, count + 1, []);
    assert DecodeValue(a[k..], p - k, depth, count) == AsDict(DecodePairs(a[k..], p + 1 - k, depth, count + 1, []));
  }

  lemma {:induction false} ItemsInSuffix(a: Bytes, k: nat, p: nat, depth: nat, count: nat, out: seq<Value>)
    requires k <= p <= |a| && count <= MAX_VALUES && DecodeItems(a, p, depth, count, out).Ok?
    ensures DecodeItems(a[k..], p - k, depth, count, out) == Back(DecodeItems(a, p, depth, count, out).value, k)
    decreases |a| - p, 1
  {
    if a[p] != 'e' {
      var v := DecodeValue(a, p, depth + 1, count).value;
      ValueInSuffix(a, k, p, depth + 1, count);
      ItemsInSuffix(a, k, v.pos, depth, v.count, out + [v.value]);
    }
  }

  lemma {:induction false} PairsInSuffix(a: Bytes, k: nat, p: nat, depth: nat, count: nat, out: seq<Pair>)
    requires k <= p <= |a| && count <= MAX_VALUES && DecodePairs(a, p, depth, count, out).Ok?
    ensures DecodePairs(a[k..], p - k, depth, count, out) == Back(DecodePairs(a, p, depth, count, out).value, k)
    decreases |a| - p, 1
  {
    hide DecodeStr, DecodeInt;
    if a[p] != 'e' {
      var key := DecodeStr(a, p).value;
      var v := DecodeValue(a, key.1, depth + 1, count).value;
      StrInSuffix(a, k, p);
      ValueInSuffix(a, k, key.1, depth + 1, count);
      PairsInSuffix(a, k, v.pos, depth, v.count, out + [Pair(key.0, v.value)]);
    }
  }

  /** A value's own bytes, alone, are that value: they end exactly where it ends. */
  lemma SpanIsValue(a: Bytes, p: nat, depth: nat, count: nat)
    requires p <= |a| && DecodeValue(a, p, depth, count).Ok?
    ensures var v := DecodeValue(a, p, depth, count).value;
            DecodeValue(a[p..v.pos], 0, 0, 0) == Ok(Read(v.value, v.pos - p, v.count - count))
  {
    var v := DecodeValue(a, p, depth, count).value;
    ValueRelaxed(a, p, depth, count, depth, count);
    ValueInPrefix(a, p, 0, 0, v.pos);
    ValueInSuffix(a[..v.pos], p, p, 0, 0);
    assert a[..v.pos][p..] == a[p..v.pos];
  }

  // ---- the hashed span is the info dictionary ---------------------------------------------

  /** The first pair read under `key`, or |pairs|. */
  function FirstWith(pairs: seq<Pair>, key: Bytes): (i: nat)
    ensures i <= |pairs| && (i < |pairs| ==> pairs[i].key == key)
    ensures forall j | 0 <= j < i :: pairs[j].key != key
  {
    if pairs == [] then 0
    else
      var i := FirstWith(pairs[..|pairs| - 1], key);
      if i < |pairs| - 1 || pairs[i].key == key then i else |pairs|
  }

  /** Reading on only adds pairs. */
  lemma {:induction false} PairsGrow(data: Bytes, pos: nat, depth: nat, count: nat, out: seq<Pair>)
    requires pos <= |data| && count <= MAX_VALUES && DecodePairs(data, pos, depth, count, out).Ok?
    ensures out <= DecodePairs(data, pos, depth, count, out).value.value
    decreases |data| - pos
  {
    if data[pos] != 'e' {
      var k := DecodeStr(data, pos).value;
      var v := DecodeValue(data, k.1, depth + 1, count).value;
      PairsGrow(data, v.pos, depth, v.count, out + [Pair(k.0, v.value)]);
    }
  }

  /**
   * Scanning a dictionary the decoder accepts for "info": nothing when no pair
   * read from here on has that key, else a span whose bytes alone decode to the
   * first such pair's value.
   */
  ghost predicate FindsFirst(data: Bytes, r: InfoSpan, pairs: seq<Pair>, from: nat) {
    var i := FirstWith(pairs, "info");
    && from <= i
    && (i == |pairs| <==> r == NoInfo)
    && (i < |pairs| ==>
          && r.Span? && r.start <= r.stop <= |data|
          && DecodeValue(data[r.start..r.stop], 0, 0, 0).Ok?
          && DecodeValue(data[r.start..r.stop], 0, 0, 0).value.pos == r.stop - r.start
          && DecodeValue(data[r.start..r.stop], 0, 0, 0).value.value == pairs[i].value)
  }

  lemma FirstWithIs(pairs: seq<Pair>, key: Bytes, i: nat)
    requires i <= |pairs| && (i < |pairs| ==> pairs[i].key == key)
    requires forall j | 0 <= j < i :: pairs[j].key != key
    ensures FirstWith(pairs, key) == i
  {}

  lemma {:induction false} InfoScanned(data: Bytes, pos: nat, count: nat, out: seq<Pair>)
    requires pos <= |data| <= MAX_INT64 && count <= MAX_VALUES
    requires DecodePairs(data, pos, 0, count, out).Ok?
    requires forall j | 0 <= j < |out| :: out[j].key != "info"
    ensures FindsFirst(data, InfoFrom(data, pos), DecodePairs(data, pos, 0, count, out).value.value, |out|)
    decreases |data| - pos
  {
    hide DecodeStr, ScanString;
    var pairs := DecodePairs(data, pos, 0, count, out).value.value;
    if data[pos] == 'e' {
      FirstWithIs(pairs, "info", |out|);
    } else {
      var k := DecodeStr(data, pos).value;
      var v := DecodeValue(data, k.1, 1, count).value;
      var more := out + [Pair(k.0, v.value)];
      StrScanned(data, pos);
      ValueScanned(data, k.1, 1, count);
      if k.0 == "info" {
        PairsGrow(data, v.pos, 0, v.count, more);
        assert pairs[|out|] == more[|out|] && forall j | 0 <= j < |out| :: pairs[j] == more[j];
        FirstWithIs(pairs, "info", |out|);
        SpanIsValue(data, k.1, 1, count);
      } else {
        InfoScanned(data, v.pos, v.count, more);
      }
    }
  }

  /** The pairs of the top-level dictionary, in the order read. */
  function TopPairs(data: Bytes): seq<Pair>
    requires |data| > 0 && DecodePairs(data, 1, 0, 1, []).Ok?
  {
    DecodePairs(data, 1, 0, 1, []).value.value
  }

  lemma {:induction false} DictOfKeys(pairs: seq<Pair>, key: Bytes)
    ensures key in DictOf(pairs) <==> FirstWith(pairs, key) < |pairs|
    decreases |pairs|
  {
    if pairs != [] { DictOfKeys(pairs[..|pairs| - 1], key); }
  }

  lemma {:induction false} DictOfOnce(pairs: seq<Pair>, key: Bytes, i: nat)
    requires i < |pairs| && pairs[i].key == key
    requires forall j | 0 <= j < |pairs| && pairs[j].key == key :: j == i
    ensures key in DictOf(pairs) && DictOf(pairs)[key] == pairs[i].value
    decreases |pairs|
  {
    var n := |pairs| - 1;
    if i < n {
      assert pairs[n].key != key;
      forall j | 0 <= j < n && pairs[..n][j].key == key ensures j == i { assert pairs[j].key == key; }
      DictOfOnce(pairs[..n], key, i);
    }
  }

  /**
   * For every torrent the decoder accepts, the span to hash exists exactly when
   * the decoded dictionary has an info entry, and the span's bytes decode to
   * the first one read. When the key occurs once, that is the decoder's own
   * info dictionary: the hash and the file list describe the same bytes.
   */
  lemma HashedSpanIsInfo(data: Bytes)
    requires |data| <= MAX_INT64
    requires DecodeValue(data, 0, 0, 0).Ok? && DecodeValue(data, 0, 0, 0).value.value.DictValue?
    ensures DecodePairs(data, 1, 0, 1, []).Ok? && data[0] == 'd'
    ensures FindsFirst(data, InfoFrom(data, 1), TopPairs(data), 0)
    ensures var top := DecodeValue(data, 0, 0, 0).value.value.entries;
            var r := InfoFrom(data, 1);
            && ("info" in top <==> r.Span?)
            && ((forall i, j | 0 <= i < j < |TopPairs(data)| :: !(TopPairs(data)[i].key == TopPairs(data)[j].key == "info"))
                ==> "info" in top ==> DecodeValue(data[r.start..r.stop], 0, 0, 0).value.value == top["info"])
  {
    assert data[0] == 'd';
    var pairs := DecodePairs(data, 1, 0, 1, []).value.value;
    InfoScanned(data, 1, 1, []);
    DictOfKeys(pairs, "info");
    var i := FirstWith(pairs, "info");
    if i < |pairs| && forall i, j | 0 <= i < j < |pairs| :: !(pairs[i].key == pairs[j].key == "info") {
      DictOfOnce(pairs, "info", i);
    }
  }
}
