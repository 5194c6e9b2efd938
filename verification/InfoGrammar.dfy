/**
 * What the span scanner accepts, as a language: the spellings of values, loosely written
 * as it allows, and which of them is the one to hash. Nothing here says how it scans.
 */
module InfoGrammar {
  import opened Common
  import opened Numerals
  import opened InfoHash
  import opened BencodeRoundTrip

  /** A value as it is spelled: an integer's bytes are anything, a length may be written in any way. */
  datatype Raw =
    | Num(body: Bytes)
    | Text(len: Bytes, s: Bytes)
    | Many(items: seq<Raw>)
    | Pairs(fields: seq<RawField>)

  datatype RawField = RawField(len: Bytes, key: Bytes, value: Raw)

  function SpellText(len: Bytes, s: Bytes): Bytes { len + [':'] + s }

  function Spell(t: Raw): Bytes {
    match t
    case Num(body) => ['i'] + (body + ['e'])
    case Text(len, s) => SpellText(len, s)
    case Many(items) => ['l'] + SpellItems(items)
    case Pairs(fields) => ['d'] + SpellFields(fields)
  }

  /** The items, and the byte that closes the container. */
  function SpellItems(items: seq<Raw>): Bytes {
    if items == [] then ['e'] else Spell(items[0]) + SpellItems(items[1..])
  }

  function SpellFields(fields: seq<RawField>): Bytes {
    if fields == [] then ['e'] else SpellField(fields[0]) + SpellFields(fields[1..])
  }

  function SpellField(f: RawField): Bytes { SpellText(f.len, f.key) + Spell(f.value) }

  /** The length before the colon is that of the bytes behind it. */
  predicate Measures(len: Bytes, s: Bytes) { ':' !in len && ParseInt64(len) == Some(|s|) }

  /** The value keeps the scanner's rules at this depth: it may be nested thirty-two deep. */
  predicate Allowed(t: Raw, depth: nat) {
    depth <= 32 &&
    match t
    case Num(body) => 'e' !in body
    case Text(len, s) => Measures(len, s) && IsDigit(len[0])
    case Many(items) => ItemsAllowed(items, depth)
    case Pairs(fields) => FieldsAllowed(fields, depth)
  }

  predicate ItemsAllowed(items: seq<Raw>, depth: nat) {
    items == [] || (Allowed(items[0], depth + 1) && ItemsAllowed(items[1..], depth))
  }

  predicate FieldsAllowed(fields: seq<RawField>, depth: nat) {
    fields == [] || (FieldAllowed(fields[0], depth) && FieldsAllowed(fields[1..], depth))
  }

  predicate FieldAllowed(f: RawField, depth: nat) { Measures(f.len, f.key) && Allowed(f.value, depth + 1) }

  // ---- strings ------------------------------------------------------------------------------

  lemma TextScans(data: Bytes, pos: nat, len: Bytes, s: Bytes)
    requires Holds(data, pos, SpellText(len, s)) && Measures(len, s) && |data| <= MAX_INT64
    ensures pos < |data| && data[pos] == len[0] && data[pos] != 'e'
    ensures ScanString(data, pos) == At(pos + |SpellText(len, s)|)
    ensures KeyAt(data, pos, pos + |SpellText(len, s)|) == s
  {
    hide ParseInt64;
    HoldsParts(data, pos, len + [':'], s);
    HoldsParts(data, pos, len, [':']);
    HoldsAt(data, pos + |len|, [':'], 0);
    forall j | pos <= j < pos + |len| ensures data[j] != ':' { HoldsAt(data, pos, len, j - pos); }
    IndexByteIs(data, pos, ':', pos + |len|);
    LengthStarts(len);
    HoldsAt(data, pos, len, 0);
  }

  lemma LengthStarts(len: Bytes)
    requires ParseInt64(len).Some?
    ensures len != [] && len[0] != 'e' && len[0] != 'i' && len[0] != 'l' && len[0] != 'd'
  {
    if len != [] && len[0] != '-' && len[0] != '+' { assert IsDigit(len[0]) by { var digits := len; } }
  }

  /** A string that was scanned is spelled there. */
  lemma TextScanned(data: Bytes, pos: nat) returns (len: Bytes, s: Bytes)
    requires pos <= |data| <= MAX_INT64 && ScanString(data, pos).At?
    ensures Holds(data, pos, SpellText(len, s)) && Measures(len, s)
    ensures ScanString(data, pos).next == pos + |SpellText(len, s)| && s == KeyAt(data, pos, ScanString(data, pos).next)
  {
    hide ParseInt64;
    var colon, next := IndexByte(data, pos, ':'), ScanString(data, pos).next;
    len, s := data[pos..colon], data[colon + 1..next];
    forall j | pos <= j < colon ensures data[j] != ':' { IndexByteIsFirst(data, pos, ':', j); }
    var n := ParseInt64(len).value;
    InRange(len);
    assert next == colon + 1 + n;
    assert data[pos..next] == SpellText(len, s);
  }

  lemma InRange(len: Bytes)
    requires ParseInt64(len).Some?
    ensures InInt64(ParseInt64(len).value)
  {}

  // ---- a spelled value is scanned to its end --------------------------------------------------

  lemma {:induction false} ValueScans(data: Bytes, pos: nat, t: Raw, depth: nat)
    requires Holds(data, pos, Spell(t)) && Allowed(t, depth) && |data| <= MAX_INT64
    ensures pos < |data| && data[pos] != 'e' && ScanValue(data, pos, depth) == At(pos + |Spell(t)|)
    decreases t, 0
  {
    hide ScanString, ParseInt64, ScanRest, SpellItems, SpellFields, ItemsAllowed, FieldsAllowed;
    match t
    case Num(body) =>
      NumScans(data, pos, body);
    case Text(len, x) =>
      TextScans(data, pos, len, x);
      LengthStarts(len);
    case Many(items) =>
      HoldsParts(data, pos, ['l'], SpellItems(items));
      HoldsAt(data, pos, ['l'], 0);
      ItemsScan(data, pos + 1, items, depth);
    case Pairs(fields) =>
      HoldsParts(data, pos, ['d'], SpellFields(fields));
      HoldsAt(data, pos, ['d'], 0);
      FieldsScan(data, pos + 1, fields, depth);
  }

  lemma NumScans(data: Bytes, pos: nat, body: Bytes)
    requires Holds(data, pos, ['i'] + (body + ['e'])) && 'e' !in body
    ensures pos < |data| && data[pos] == 'i' && pos + 1 <= |data|
    ensures IndexByte(data, pos + 1, 'e') == pos + 1 + |body| < |data|
  {
    hide IndexByte;
    HoldsParts(data, pos, ['i'], body + ['e']);
    HoldsAt(data, pos, ['i'], 0);
    HoldsParts(data, pos + 1, body, ['e']);
    HoldsAt(data, pos + 1 + |body|, ['e'], 0);
    forall j | pos + 1 <= j < pos + 1 + |body| ensures data[j] != 'e' { HoldsAt(data, pos + 1, body, j - (pos + 1)); }
    IndexByteIs(data, pos + 1, 'e', pos + 1 + |body|);
  }

  lemma {:induction false} ItemsScan(data: Bytes, pos: nat, items: seq<Raw>, depth: nat)
    requires Holds(data, pos, SpellItems(items)) && ItemsAllowed(items, depth) && |data| <= MAX_INT64
    ensures pos <= |data| && ScanRest(data, pos, depth, false) == At(pos + |SpellItems(items)|)
    decreases items, 1
  {
    hide ScanValue, Spell, Allowed;
    if items == [] {
      HoldsAt(data, pos, ['e'], 0);
    } else {
      HoldsParts(data, pos, Spell(items[0]), SpellItems(items[1..]));
      ValueScans(data, pos, items[0], depth + 1);
      ItemsScan(data, pos + |Spell(items[0])|, items[1..], depth);
    }
  }

  lemma {:induction false} FieldsScan(data: Bytes, pos: nat, fields: seq<RawField>, depth: nat)
    requires Holds(data, pos, SpellFields(fields)) && FieldsAllowed(fields, depth) && |data| <= MAX_INT64
    ensures pos <= |data| && ScanRest(data, pos, depth, true) == At(pos + |SpellFields(fields)|)
    decreases fields, 1
  {
    hide ScanValue, ScanString, Spell, Allowed, SpellText, ParseInt64;
    if fields == [] {
      HoldsAt(data, pos, ['e'], 0);
    } else {
      var f := fields[0];
      var start := pos + |SpellText(f.len, f.key)|;
      HoldsParts(data, pos, SpellField(f), SpellFields(fields[1..]));
      HoldsParts(data, pos, SpellText(f.len, f.key), Spell(f.value));
      TextScans(data, pos, f.len, f.key);
      ValueScans(data, start, f.value, depth + 1);
      FieldsScan(data, start + |Spell(f.value)|, fields[1..], depth);
    }
  }

  // ---- a value that was scanned is spelled ------------------------------------------------------

  lemma {:induction false} ValueScanned(data: Bytes, pos: nat, depth: nat) returns (t: Raw)
    requires pos <= |data| <= MAX_INT64 && ScanValue(data, pos, depth).At?
    ensures Allowed(t, depth) && Holds(data, pos, Spell(t)) && ScanValue(data, pos, depth).next == pos + |Spell(t)|
    decreases |data| - pos, 0
  {
    hide ScanString, ParseInt64, ScanRest, SpellItems, SpellFields, ItemsAllowed, FieldsAllowed;
    var next := ScanValue(data, pos, depth).next;
    if data[pos] == 'i' {
      t := NumScanned(data, pos);
    } else if data[pos] == 'l' {
      var items := ItemsScanned(data, pos + 1, depth);
      t := Many(items);
      HoldsBoth(data, pos, ['l'], SpellItems(items));
    } else if data[pos] == 'd' {
      var fields := FieldsScanned(data, pos + 1, depth);
      t := Pairs(fields);
      HoldsBoth(data, pos, ['d'], SpellFields(fields));
    } else {
      var len, x := TextScanned(data, pos);
      t := Text(len, x);
      TextBegins(data, pos, len, x);
    }
  }

  lemma NumScanned(data: Bytes, pos: nat) returns (t: Raw)
    requires pos < |data| && data[pos] == 'i' && IndexByte(data, pos + 1, 'e') < |data|
    ensures t.Num? && 'e' !in t.body && Holds(data, pos, Spell(t)) && IndexByte(data, pos + 1, 'e') + 1 == pos + |Spell(t)|
  {
    hide IndexByte;
    var end := IndexByte(data, pos + 1, 'e');
    forall j | pos + 1 <= j < end ensures data[j] != 'e' { IndexByteIsFirst(data, pos + 1, 'e', j); }
    t := Num(data[pos + 1..end]);
    assert data[pos..end + 1] == Spell(t);
  }

  lemma TextBegins(data: Bytes, pos: nat, len: Bytes, s: Bytes)
    requires Holds(data, pos, SpellText(len, s)) && ParseInt64(len).Some?
    ensures len != [] && pos < |data| && data[pos] == len[0]
  {
    hide ParseInt64;
    LengthStarts(len);
    HoldsParts(data, pos, len + [':'], s);
    HoldsParts(data, pos, len, [':']);
    HoldsAt(data, pos, len, 0);
  }

  lemma HoldsBoth(data: Bytes, pos: nat, a: Bytes, b: Bytes)
    requires Holds(data, pos, a) && Holds(data, pos + |a|, b)
    ensures Holds(data, pos, a + b)
  {
    assert data[pos..pos + |a + b|] == data[pos..pos + |a|] + data[pos + |a|..pos + |a| + |b|];
  }

  lemma {:induction false} ItemsScanned(data: Bytes, pos: nat, depth: nat) returns (items: seq<Raw>)
    requires pos <= |data| <= MAX_INT64 && ScanRest(data, pos, depth, false).At?
    ensures ItemsAllowed(items, depth) && Holds(data, pos, SpellItems(items))
    ensures ScanRest(data, pos, depth, false).next == pos + |SpellItems(items)|
    decreases |data| - pos, 1
  {
    hide ScanValue, Spell, Allowed;
    if data[pos] == 'e' {
      items := [];
    } else {
      var t := ValueScanned(data, pos, depth + 1);
      var rest := ItemsScanned(data, ScanValue(data, pos, depth + 1).next, depth);
      items := [t] + rest;
      HoldsBoth(data, pos, Spell(t), SpellItems(rest));
      assert items[1..] == rest;
    }
  }

  lemma {:induction false} FieldsScanned(data: Bytes, pos: nat, depth: nat) returns (fields: seq<RawField>)
    requires pos <= |data| <= MAX_INT64 && ScanRest(data, pos, depth, true).At?
    ensures FieldsAllowed(fields, depth) && Holds(data, pos, SpellFields(fields))
    ensures ScanRest(data, pos, depth, true).next == pos + |SpellFields(fields)|
    decreases |data| - pos, 1
  {
    hide ScanValue, ScanString, Spell, Allowed, ParseInt64, SpellText;
    if data[pos] == 'e' {
      fields := [];
    } else {
      var f := FieldScanned(data, pos, depth);
      var next := pos + |SpellField(f)|;
      var rest := FieldsScanned(data, next, depth);
      fields := [f] + rest;
      HoldsBoth(data, pos, SpellField(f), SpellFields(rest));
      assert fields[1..] == rest;
    }
  }

  lemma FieldScanned(data: Bytes, pos: nat, depth: nat) returns (f: RawField)
    requires pos <= |data| <= MAX_INT64 && ScanString(data, pos).At? && ScanValue(data, ScanString(data, pos).next, depth + 1).At?
    ensures FieldAllowed(f, depth) && Holds(data, pos, SpellField(f)) && f.key == KeyAt(data, pos, ScanString(data, pos).next)
    ensures ScanString(data, pos).next == pos + |SpellText(f.len, f.key)|
    ensures ScanValue(data, ScanString(data, pos).next, depth + 1).next == pos + |SpellField(f)|
    decreases |data| - pos, 0, 1
  {
    hide ScanValue, ScanString, Spell, Allowed, ParseInt64, SpellText;
    var len, key := TextScanned(data, pos);
    var t := ValueScanned(data, ScanString(data, pos).next, depth + 1);
    f := RawField(len, key, t);
    HoldsBoth(data, pos, SpellText(len, key), Spell(t));
  }

  /** The scanner accepts exactly the spellings that keep its rules, and stops exactly at their end. */
  lemma ScansExactly(data: Bytes, pos: nat, depth: nat, next: nat)
    requires pos <= |data| <= MAX_INT64
    ensures ScanValue(data, pos, depth) == At(next) <==> exists t :: Spelled(data, pos, t, depth, next)
  {
    hide ScanValue, Spell, Allowed;
    if ScanValue(data, pos, depth) == At(next) {
      var t := ValueScanned(data, pos, depth);
      assert Spelled(data, pos, t, depth, next);
    }
    if t :| Spelled(data, pos, t, depth, next) { ValueScans(data, pos, t, depth); }
  }

  ghost predicate Spelled(data: Bytes, pos: nat, t: Raw, depth: nat, next: nat) {
    Allowed(t, depth) && Holds(data, pos, Spell(t)) && next == pos + |Spell(t)|
  }

  // ---- which value is hashed -----------------------------------------------------------------------

  /** Fields one after the other. */
  function SpellRun(fields: seq<RawField>): Bytes {
    if fields == [] then [] else SpellField(fields[0]) + SpellRun(fields[1..])
  }

  /** Fields other than `info`, then an `info` field whose value is data[start..stop]. */
  ghost predicate Leads(data: Bytes, pos: nat, fields: seq<RawField>, f: RawField, start: nat, stop: nat) {
    && FieldsAllowed(fields, 0) && FieldAllowed(f, 0) && f.key == "info"
    && (forall i | 0 <= i < |fields| :: fields[i].key != "info")
    && Holds(data, pos, SpellRun(fields) + SpellField(f))
    && stop == pos + |SpellRun(fields) + SpellField(f)| && start == stop - |Spell(f.value)|
  }

  lemma FieldScans(data: Bytes, pos: nat, f: RawField, depth: nat)
    requires Holds(data, pos, SpellField(f)) && FieldAllowed(f, depth) && |data| <= MAX_INT64
    ensures pos < |data| && data[pos] != 'e'
    ensures ScanString(data, pos) == At(pos + |SpellText(f.len, f.key)|)
    ensures KeyAt(data, pos, pos + |SpellText(f.len, f.key)|) == f.key
    ensures ScanValue(data, pos + |SpellText(f.len, f.key)|, depth + 1) == At(pos + |SpellField(f)|)
  {
    hide ScanValue, ScanString, Spell, Allowed, SpellText, Measures, KeyAt;
    HoldsParts(data, pos, SpellText(f.len, f.key), Spell(f.value));
    TextScans(data, pos, f.len, f.key);
    ValueScans(data, pos + |SpellText(f.len, f.key)|, f.value, depth + 1);
  }

  lemma {:induction false} LeadsFound(data: Bytes, pos: nat, fields: seq<RawField>, f: RawField, start: nat, stop: nat)
    requires pos <= |data| <= MAX_INT64 && Leads(data, pos, fields, f, start, stop)
    ensures InfoFrom(data, pos) == Span(start, stop)
    decreases fields
  {
    hide ScanValue, ScanString, Spell, Allowed, SpellText, FieldAllowed, KeyAt;
    if fields == [] {
      assert SpellRun(fields) + SpellField(f) == SpellField(f);
      FieldScans(data, pos, f, 0);
    } else {
      var head := fields[0];
      var rest := SpellRun(fields[1..]) + SpellField(f);
      assert SpellRun(fields) + SpellField(f) == SpellField(head) + rest;
      HoldsParts(data, pos, SpellField(head), rest);
      FieldScans(data, pos, head, 0);
      LeadsFound(data, pos + |SpellField(head)|, fields[1..], f, start, stop);
    }
  }

  lemma {:induction false} FoundLeads(data: Bytes, pos: nat) returns (fields: seq<RawField>, f: RawField)
    requires pos <= |data| <= MAX_INT64 && InfoFrom(data, pos).Span?
    ensures Leads(data, pos, fields, f, InfoFrom(data, pos).start, InfoFrom(data, pos).stop)
    decreases |data| - pos
  {
    hide ScanValue, ScanString, Spell, Allowed, SpellText, FieldAllowed, KeyAt;
    var head := FieldScanned(data, pos, 0);
    if head.key == "info" {
      fields, f := [], head;
      assert SpellRun(fields) + SpellField(f) == SpellField(f);
    } else {
      var next := pos + |SpellField(head)|;
      var rest, found := FoundLeads(data, next);
      fields, f := [head] + rest, found;
      assert fields[1..] == rest;
      HoldsBoth(data, pos, SpellField(head), SpellRun(rest) + SpellField(f));
      assert SpellRun(fields) + SpellField(f) == SpellField(head) + (SpellRun(rest) + SpellField(f));
    }
  }

  /** The span to hash is found exactly when fields lead up to an `info`: it is the value of the first one. */
  lemma InfoExactly(data: Bytes, pos: nat, start: nat, stop: nat)
    requires pos <= |data| <= MAX_INT64
    ensures InfoFrom(data, pos) == Span(start, stop) <==> exists fields, f :: Leads(data, pos, fields, f, start, stop)
  {
    hide Leads, InfoFrom;
    if InfoFrom(data, pos) == Span(start, stop) { var fields, f := FoundLeads(data, pos); }
    if fields, f :| Leads(data, pos, fields, f, start, stop) { LeadsFound(data, pos, fields, f, start, stop); }
  }
}
