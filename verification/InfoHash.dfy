/**
 * infohash: the second bencode reader. It only finds spans, so that the raw
 * bytes of the info dictionary can be hashed.
 */
module InfoHash {
  import opened Common
  import opened Numerals

  const MAX_BENCODE_DEPTH: nat := 32

  /**
   * `At` is the index past the value. `Fault` is a slice expression whose bounds
   * are out of order: the string length wrapped around 64 bits.
   */
  datatype Scan = At(next: nat) | Malformed | Fault

  // ---- the scanner, as functions ------------------------------------------------

  function ScanString(data: Bytes, pos: nat): (r: Scan)
    requires pos <= |data|
    ensures r.At? ==> pos < r.next <= |data|
  {
    var colon := IndexByte(data, pos, ':');
    if colon == |data| then Malformed
    else
      match ParseInt64(data[pos..colon])
      case None => Malformed
      case Some(n) =>
        if n < 0 then Malformed
        else
          var end := Wrap64(colon + 1 + n);
          if end > |data| then Malformed
          else if end < colon + 1 then Fault
          else At(end)
  }

  function ScanValue(data: Bytes, pos: nat, depth: nat): (r: Scan)
    requires pos <= |data|
    ensures r.At? ==> pos < r.next <= |data|
    decreases |data| - pos, 0
  {
    if pos >= |data| then Malformed
    else if depth > MAX_BENCODE_DEPTH then Malformed
    else if data[pos] == 'i' then
      var end := IndexByte(data, pos + 1, 'e');
      if end == |data| then Malformed else At(end + 1)
    else if data[pos] == 'l' || data[pos] == 'd' then ScanRest(data, pos + 1, depth, data[pos] == 'd')
    else if IsDigit(data[pos]) then ScanString(data, pos)
    else Malformed
  }

  /** The rest of a container; a dictionary reads a key before each value. */
  function ScanRest(data: Bytes, pos: nat, depth: nat, keyed: bool): (r: Scan)
    requires pos <= |data|
    ensures r.At? ==> pos < r.next <= |data|
    decreases |data| - pos, 1
  {
    if pos >= |data| then Malformed
    else if data[pos] == 'e' then At(pos + 1)
    else
      var key := if keyed then ScanString(data, pos) else At(pos);
      if !key.At? then key
      else
        var value := ScanValue(data, key.next, depth + 1);
        if value.At? then ScanRest(data, value.next, depth, keyed) else value
  }

  datatype InfoSpan = Span(start: nat, stop: nat) | NoInfo | InfoFault

  /** The span of the first top-level "info" value found from pos on. */
  function InfoFrom(data: Bytes, pos: nat): (r: InfoSpan)
    requires pos <= |data|
    ensures r.Span? ==> r.start <= r.stop <= |data|
    decreases |data| - pos
  {
    if pos >= |data| || data[pos] == 'e' then NoInfo
    else
      var key := ScanString(data, pos);
      if !key.At? then Stopped(key)
      else
        var value := ScanValue(data, key.next, 1);
        if !value.At? then Stopped(value)
        else if KeyAt(data, pos, key.next) == "info" then Span(key.next, value.next)
        else InfoFrom(data, value.next)
  }

  function Stopped(s: Scan): InfoSpan {
    if s == Fault then InfoFault else NoInfo
  }

  /** The bytes of the string that ends at `next`. */
  function KeyAt(data: Bytes, pos: nat, next: nat): Bytes
    requires pos <= |data| && ScanString(data, pos) == At(next)
  {
    data[IndexByte(data, pos, ':') + 1..next]
  }

  // ---- the scanner -----------------------------------------------------------------

  method IndexByteFrom(data: Bytes, from: nat, b: Byte) returns (i: int)
    requires from <= |data|
    ensures i == if IndexByte(data, from, b) == |data| then -1 else IndexByte(data, from, b)
  {
    i := from;
    while i < |data|
      invariant from <= i <= |data|
      invariant IndexByte(data, from, b) == IndexByte(data, i, b)
    {
      if data[i] == b { return i; }
      i := i + 1;
    }
    return -1;
  }

  method ReadString(data: Bytes, pos: nat) returns (key: Bytes, r: Scan)
    requires pos <= |data|
    ensures r == ScanString(data, pos)
    ensures r.At? ==> key == KeyAt(data, pos, r.next)
  {
    key := [];
    var colon := IndexByteFrom(data, pos, ':');
    if colon < 0 { return key, Malformed; }
    match ParseInt64(data[pos..colon])
    case None => return key, Malformed;
    case Some(n) =>
      if n < 0 { return key, Malformed; }
      var start := colon + 1;
      var end := Wrap64(start + n);
      if end > |data| { return key, Malformed; }
      if end < start { return key, Fault; }
      return data[start..end], At(end);
  }

  method SkipValue(data: Bytes, pos: nat, depth: nat) returns (r: Scan)
    requires pos <= |data|
    ensures r == ScanValue(data, pos, depth)
    decreases |data| - pos, 0
  {
    if pos >= |data| || depth > MAX_BENCODE_DEPTH { return Malformed; }
    var c := data[pos];
    if c == 'i' {
      var end := IndexByteFrom(data, pos + 1, 'e');
      return if end < 0 then Malformed else At(end + 1);
    } else if c == 'l' || c == 'd' {
      r := SkipContainer(data, pos + 1, depth, c == 'd');
    } else if IsDigit(c) {
      var _, s := ReadString(data, pos);
      return s;
    } else {
      return Malformed;
    }
  }

  method SkipContainer(data: Bytes, from: nat, depth: nat, keyed: bool) returns (r: Scan)
    requires from <= |data|
    ensures r == ScanRest(data, from, depth, keyed)
    decreases |data| - from, 1
  {
    var pos := from;
    while pos < |data| && data[pos] != 'e'
      invariant from <= pos <= |data|
      invariant ScanRest(data, from, depth, keyed) == ScanRest(data, pos, depth, keyed)
    {
      var start := pos;
      if keyed {
        var _, key := ReadString(data, pos);
        if !key.At? { return key; }
        start := key.next;
      }
      var value := SkipValue(data, start, depth + 1);
      if !value.At? { return value; }
      pos := value.next;
    }
    return if pos >= |data| then Malformed else At(pos + 1);
  }

  /** The span of the top-level info value, to be hashed verbatim. */
  method InfoDictBytes(data: Bytes) returns (r: InfoSpan)
    ensures r == if |data| == 0 || data[0] != 'd' then NoInfo else InfoFrom(data, 1)
  {
    if |data| == 0 || data[0] != 'd' { return NoInfo; }
    var pos := 1;
    while pos < |data| && data[pos] != 'e'
      invariant 1 <= pos <= |data|
      invariant InfoFrom(data, 1) == InfoFrom(data, pos)
    {
      var key, s := ReadString(data, pos);
      if !s.At? { return Stopped(s); }
      var value := SkipValue(data, s.next, 1);
      if !value.At? { return Stopped(value); }
      if key == "info" { return Span(s.next, value.next); }
      pos := value.next;
    }
    return NoInfo;
  }

  // ---- exactly when the scanner slices out of bounds ---------------------------------

  /** The length prefix at pos is a 64-bit number that carries the string's end past the largest one. */
  predicate Overlong(data: Bytes, pos: nat)
    requires pos <= |data|
  {
    var colon := IndexByte(data, pos, ':');
    && colon < |data|
    && ParseInt64(data[pos..colon]).Some?
    && ParseInt64(data[pos..colon]).value > MAX_INT64 - (colon + 1)
  }

  /** Reading a string faults exactly when its length prefix is overlong. */
  lemma StringFaultsExactly(data: Bytes, pos: nat)
    requires pos <= |data| <= MAX_INT64
    ensures ScanString(data, pos) == Fault <==> Overlong(data, pos)
  {
    var colon := IndexByte(data, pos, ':');
    if colon < |data| {
      match ParseInt64(data[pos..colon])
      case None =>
      case Some(n) =>
        assert InInt64(n);
    }
  }

  /** Where the strings begin that skipping the value at pos reads. */
  function StringsIn(data: Bytes, pos: nat, depth: nat): (r: set<nat>)
    requires pos <= |data|
    ensures forall p | p in r :: pos <= p < |data|
    decreases |data| - pos, 0
  {
    if pos >= |data| || depth > MAX_BENCODE_DEPTH then {}
    else if data[pos] == 'l' || data[pos] == 'd' then StringsInRest(data, pos + 1, depth, data[pos] == 'd')
    else if IsDigit(data[pos]) then {pos}
    else {}
  }

  /** The same for the rest of a container: keys, and the strings in values. */
  function StringsInRest(data: Bytes, pos: nat, depth: nat, keyed: bool): (r: set<nat>)
    requires pos <= |data|
    ensures forall p | p in r :: pos <= p < |data|
    decreases |data| - pos, 2
  {
    if pos >= |data| || data[pos] == 'e' then {}
    else if !keyed then StringsInValue(data, pos, depth, keyed)
    else
      var key := ScanString(data, pos);
      {pos} + if key.At? then StringsInValue(data, key.next, depth, keyed) else {}
  }

  /** A value in a container, and what comes after it when it has an end. */
  function StringsInValue(data: Bytes, pos: nat, depth: nat, keyed: bool): (r: set<nat>)
    requires pos <= |data|
    ensures forall p | p in r :: pos <= p < |data|
    decreases |data| - pos, 1
  {
    var value := ScanValue(data, pos, depth + 1);
    StringsIn(data, pos, depth + 1)
    + if value.At? then StringsInRest(data, value.next, depth, keyed) else {}
  }

  /** Where the strings begin that the search for "info" reads from pos on. */
  function StringsToInfo(data: Bytes, pos: nat): (r: set<nat>)
    requires pos <= |data|
    ensures forall p | p in r :: pos <= p < |data|
    decreases |data| - pos
  {
    if pos >= |data| || data[pos] == 'e' then {}
    else
      var key := ScanString(data, pos);
      {pos} +
      if !key.At? then {}
      else
        var value := ScanValue(data, key.next, 1);
        StringsIn(data, key.next, 1)
        + if value.At? && KeyAt(data, pos, key.next) != "info" then StringsToInfo(data, value.next) else {}
  }

  predicate SomeOverlong(data: Bytes, at: set<nat>)
    requires forall p | p in at :: p <= |data|
  {
    exists p :: p in at && Overlong(data, p)
  }

  lemma {:induction false} ValueFaultsExactly(data: Bytes, pos: nat, depth: nat)
    requires pos <= |data| <= MAX_INT64
    ensures ScanValue(data, pos, depth) == Fault <==> SomeOverlong(data, StringsIn(data, pos, depth))
    decreases |data| - pos, 0
  {
    hide ScanString, Overlong, ScanRest, StringsInRest;
    if pos < |data| && depth <= MAX_BENCODE_DEPTH {
      if data[pos] == 'l' || data[pos] == 'd' {
        RestFaultsExactly(data, pos + 1, depth, data[pos] == 'd');
      } else if IsDigit(data[pos]) {
        StringFaultsExactly(data, pos);
        assert pos in StringsIn(data, pos, depth);
      }
    }
  }

  lemma {:induction false} RestFaultsExactly(data: Bytes, pos: nat, depth: nat, keyed: bool)
    requires pos <= |data| <= MAX_INT64
    ensures ScanRest(data, pos, depth, keyed) == Fault <==> SomeOverlong(data, StringsInRest(data, pos, depth, keyed))
    decreases |data| - pos, 1
  {
    hide ScanString, Overlong, ScanValue, StringsIn;
    if pos < |data| && data[pos] != 'e' {
      var key := if keyed then ScanString(data, pos) else At(pos);
      if keyed { StringFaultsExactly(data, pos); }
      if key.At? {
        var value := ScanValue(data, key.next, depth + 1);
        ValueFaultsExactly(data, key.next, depth + 1);
        if value.At? { RestFaultsExactly(data, value.next, depth, keyed); }
      }
    }
  }

  /** The search for the info value faults exactly when one of the strings it reads is overlong. */
  lemma {:induction false} InfoFaultsExactly(data: Bytes, pos: nat)
    requires pos <= |data| <= MAX_INT64
    ensures InfoFrom(data, pos) == InfoFault <==> SomeOverlong(data, StringsToInfo(data, pos))
    decreases |data| - pos
  {
    hide ScanString, Overlong, ScanValue, StringsIn, KeyAt;
    if pos < |data| && data[pos] != 'e' {
      var key := ScanString(data, pos);
      StringFaultsExactly(data, pos);
      if key.At? {
        var value := ScanValue(data, key.next, 1);
        ValueFaultsExactly(data, key.next, 1);
        if value.At? && KeyAt(data, pos, key.next) != "info" { InfoFaultsExactly(data, value.next); }
      }
    }
  }

  /** No length above the largest 64-bit number less the input's own size: no fault. */
  lemma ModestLengthsNeverFault(data: Bytes, pos: nat)
    requires pos <= |data| <= MAX_INT64
    requires forall p, colon | 0 <= p <= colon < |data| && ParseInt64(data[p..colon]).Some? ::
               ParseInt64(data[p..colon]).value <= MAX_INT64 - |data|
    ensures InfoFrom(data, pos) != InfoFault
  {
    hide InfoFrom, StringsToInfo, ParseInt64;
    InfoFaultsExactly(data, pos);
  }

  /** An input that is no torrent at all: `d`, one of the three largest 64-bit numbers, and a colon. */
  lemma OverlongKeyFaults(n: nat)
    requires MAX_INT64 - 3 < n <= MAX_INT64
    ensures InfoFrom(['d'] + Decimal(n) + [':'], 1) == InfoFault
  {
    hide NatDigits, ParseInt64, IndexByte, InfoFrom, StringsToInfo;
    var s := Decimal(n);
    var data := ['d'] + s + [':'];
    DecimalParses(n);
    ShortDigits(n);
    IndexByteIs(data, 1, ':', 1 + |s|);
    assert data[1..1 + |s|] == s;
    StringFaultsExactly(data, 1);
    FirstKeyFaults(data);
  }

  lemma FirstKeyFaults(data: Bytes)
    requires |data| > 1 && data[1] != 'e' && ScanString(data, 1) == Fault
    ensures InfoFrom(data, 1) == InfoFault
  {}
}
