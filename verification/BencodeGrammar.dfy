/**
 * What the decoder accepts, as a language: the spellings the scanner accepts whose
 * integers are numbers, within the decoder's caps; and what each of them means.
 */
module BencodeGrammar {
  import opened Common
  import opened Numerals
  import opened Bencode
  import opened BencodeRoundTrip
  import InfoHash
  import opened InfoGrammar
  import ReaderAgreement

  /** Every integer is a 64-bit number and no list is longer than a hundred thousand. */
  predicate Numeric(t: Raw) {
    match t
    case Num(body) => ParseInt64(body).Some?
    case Text(_, _) => true
    case Many(items) => |items| <= 100_000 && ItemsNumeric(items)
    case Pairs(fields) => FieldsNumeric(fields)
  }

  predicate ItemsNumeric(items: seq<Raw>) { items == [] || (Numeric(items[0]) && ItemsNumeric(items[1..])) }

  predicate FieldsNumeric(fields: seq<RawField>) {
    fields == [] || (Numeric(fields[0].value) && FieldsNumeric(fields[1..]))
  }

  /** Values counted: dictionary keys are free. */
  function Count(t: Raw): (n: nat)
    ensures n >= 1
  {
    match t
    case Num(_) => 1
    case Text(_, _) => 1
    case Many(items) => 1 + ItemsCount(items)
    case Pairs(fields) => 1 + FieldsCount(fields)
  }

  function ItemsCount(items: seq<Raw>): nat { if items == [] then 0 else Count(items[0]) + ItemsCount(items[1..]) }

  function FieldsCount(fields: seq<RawField>): nat {
    if fields == [] then 0 else Count(fields[0].value) + FieldsCount(fields[1..])
  }

  function ValueOf(t: Raw): Value
    requires Numeric(t)
  {
    match t
    case Num(body) => IntValue(ParseInt64(body).value)
    case Text(_, s) => StrValue(s)
    case Many(items) => ListValue(ItemValues(items))
    case Pairs(fields) => DictValue(DictOf(FieldValues(fields)))
  }

  function ItemValues(items: seq<Raw>): (r: seq<Value>)
    requires ItemsNumeric(items)
  {
    if items == [] then [] else [ValueOf(items[0])] + ItemValues(items[1..])
  }

  function FieldValues(fields: seq<RawField>): seq<Pair>
    requires FieldsNumeric(fields)
  {
    if fields == [] then [] else [Pair(fields[0].key, ValueOf(fields[0].value))] + FieldValues(fields[1..])
  }

  /** Reading a spelled value: accepted exactly when it is numeric and there is room to count it. */
  ghost predicate Reads(r: Result<Read<Value>, Error>, t: Raw, pos: nat, count: nat) {
    && (r.Ok? <==> Numeric(t) && count + Count(t) <= 250_000)
    && (r.Ok? ==> r.value == Read(ValueOf(t), pos + |Spell(t)|, count + Count(t)))
  }

  lemma StrReads(data: Bytes, pos: nat, len: Bytes, s: Bytes)
    requires Holds(data, pos, SpellText(len, s)) && Measures(len, s)
    ensures pos < |data| && data[pos] == len[0] && data[pos] != 'e'
    ensures DecodeStr(data, pos) == Ok((s, pos + |SpellText(len, s)|))
  {
    hide ParseInt64;
    HoldsParts(data, pos, len + [':'], s);
    HoldsParts(data, pos, len, [':']);
    HoldsAt(data, pos + |len|, [':'], 0);
    forall j | pos <= j < pos + |len| ensures data[j] != ':' { HoldsAt(data, pos, len, j - pos); }
    IndexByteIs(data, pos, ':', pos + |len|);
    LengthStarts(len);
    HoldsAt(data, pos, len, 0);
  }

  lemma {:induction false} ValueReads(data: Bytes, pos: nat, t: Raw, depth: nat, count: nat)
    requires Holds(data, pos, Spell(t)) && Allowed(t, depth)
    ensures pos < |data| && data[pos] != 'e' && Reads(DecodeValue(data, pos, depth, count), t, pos, count)
    decreases t, 0
  {
    hide DecodeStr, ParseInt64, DecodeItems, DecodePairs, SpellItems, SpellFields, ItemsAllowed, FieldsAllowed,
         ItemsNumeric, FieldsNumeric, ItemsCount, FieldsCount, ItemValues, FieldValues, DictOf;
    match t
    case Num(body) => IntReads(data, pos, body);
    case Text(len, s) => StrReads(data, pos, len, s); LengthStarts(len);
    case Many(items) =>
      HoldsParts(data, pos, ['l'], SpellItems(items));
      HoldsAt(data, pos, ['l'], 0);
      if count + 1 <= 250_000 {
        ItemsRead(data, pos + 1, items, depth, count + 1, []);
        if ItemsNumeric(items) { assert [] + ItemValues(items) == ItemValues(items); }
      }
    case Pairs(fields) =>
      HoldsParts(data, pos, ['d'], SpellFields(fields));
      HoldsAt(data, pos, ['d'], 0);
      if count + 1 <= 250_000 {
        FieldsRead(data, pos + 1, fields, depth, count + 1, []);
        if FieldsNumeric(fields) { assert [] + FieldValues(fields) == FieldValues(fields); }
      }
  }

  lemma IntReads(data: Bytes, pos: nat, body: Bytes)
    requires Holds(data, pos, ['i'] + (body + ['e'])) && 'e' !in body
    ensures pos < |data| && data[pos] == 'i'
    ensures DecodeInt(data, pos)
         == if ParseInt64(body).Some? then Ok((ParseInt64(body).value, pos + |body| + 2)) else Err(BadInteger)
  {
    hide ParseInt64;
    NumScans(data, pos, body);
    var end := pos + 1 + |body|;
    HoldsParts(data, pos, ['i'], body + ['e']);
    HoldsParts(data, pos + 1, body, ['e']);
    forall j | pos <= j < end ensures data[j] != 'e' { if j > pos { HoldsAt(data, pos + 1, body, j - (pos + 1)); } }
    HoldsAt(data, end, ['e'], 0);
    IndexByteIs(data, pos, 'e', end);
    assert data[pos + 1..end] == body;
  }

  /** Room for the items in their list, whose first `used` items are already read. */
  predicate ItemsFit(items: seq<Raw>, count: nat, used: nat) {
    ItemsNumeric(items) && count + ItemsCount(items) <= 250_000 && used + |items| <= 100_000
  }

  /** What one item adds to its list. */
  lemma ItemParts(items: seq<Raw>, depth: nat, count: nat, used: nat)
    requires items != []
    ensures SpellItems(items) == Spell(items[0]) + SpellItems(items[1..])
    ensures ItemsAllowed(items, depth) ==> Allowed(items[0], depth + 1) && ItemsAllowed(items[1..], depth)
    ensures ItemsCount(items) == Count(items[0]) + ItemsCount(items[1..])
    ensures ItemsNumeric(items) <==> Numeric(items[0]) && ItemsNumeric(items[1..])
    ensures ItemsNumeric(items) ==> ItemValues(items) == [ValueOf(items[0])] + ItemValues(items[1..])
    ensures ItemsFit(items, count, used) <==>
              && used < 100_000 && Numeric(items[0]) && count + Count(items[0]) <= 250_000
              && ItemsFit(items[1..], count + Count(items[0]), used + 1)
  {
    hide Spell, Allowed, Numeric, Count, ValueOf;
  }

  ghost predicate ItemsReadTo(r: Result<Read<seq<Value>>, Error>, items: seq<Raw>, pos: nat, count: nat, out: seq<Value>) {
    && (r.Ok? <==> ItemsFit(items, count, |out|))
    && (r.Ok? ==> r.value == Read(out + ItemValues(items), pos + |SpellItems(items)|, count + ItemsCount(items)))
  }

  lemma {:induction false} ItemsRead(data: Bytes, pos: nat, items: seq<Raw>, depth: nat, count: nat, out: seq<Value>)
    requires Holds(data, pos, SpellItems(items)) && ItemsAllowed(items, depth) && count <= 250_000 && |out| <= 100_000
    ensures pos <= |data| && ItemsReadTo(DecodeItems(data, pos, depth, count, out), items, pos, count, out)
    decreases items, 1
  {
    hide *;
    if items == [] {
      NoItems(data, pos, depth, count, out);
    } else {
      var head, tail := items[0], items[1..];
      ItemParts(items, depth, count, |out|);
      HoldsParts(data, pos, Spell(head), SpellItems(tail));
      ValueReads(data, pos, head, depth + 1, count);
      ReadsTo(DecodeValue(data, pos, depth + 1, count), head, pos, count);
      Caps();
      NextItem(data, pos, depth, count, out);
      if |out| < 100_000 && Numeric(head) && count + Count(head) <= 250_000 {
        var more := out + [ValueOf(head)];
        ItemsRead(data, pos + |Spell(head)|, tail, depth, count + Count(head), more);
        ItemsNext(data, pos, items, depth, count, out);
      } else {
        ItemsStop(data, pos, items, depth, count, out);
      }
    }
  }

  lemma Caps()
    ensures MAX_VALUES == 250_000 && MAX_LIST_LEN == 100_000
  {}

  lemma ReadsTo(r: Result<Read<Value>, Error>, t: Raw, pos: nat, count: nat)
    requires Reads(r, t, pos, count)
    ensures r.Ok? <==> Numeric(t) && count + Count(t) <= 250_000
    ensures r.Ok? ==> r.value == Read(ValueOf(t), pos + |Spell(t)|, count + Count(t))
  {
    hide Numeric, Count, ValueOf, Spell;
  }

  lemma ItemsNext(data: Bytes, pos: nat, items: seq<Raw>, depth: nat, count: nat, out: seq<Value>)
    requires items != [] && pos + |Spell(items[0])| <= |data| && count + Count(items[0]) <= 250_000 && count <= 250_000
    requires |out| < 100_000 && Numeric(items[0])
    requires pos < |data| && DecodeItems(data, pos, depth, count, out)
             == DecodeItems(data, pos + |Spell(items[0])|, depth, count + Count(items[0]), out + [ValueOf(items[0])])
    requires ItemsReadTo(DecodeItems(data, pos + |Spell(items[0])|, depth, count + Count(items[0]), out + [ValueOf(items[0])]),
                         items[1..], pos + |Spell(items[0])|, count + Count(items[0]), out + [ValueOf(items[0])])
    ensures ItemsReadTo(DecodeItems(data, pos, depth, count, out), items, pos, count, out)
  {
    hide DecodeItems, Spell, Allowed, Numeric, Count, ValueOf, ItemsAllowed, SpellItems, ItemsNumeric, ItemValues, ItemsCount, ItemsFit;
    ItemParts(items, depth, count, |out|);
    var more := out + [ValueOf(items[0])];
    if ItemsNumeric(items) { assert more + ItemValues(items[1..]) == out + ItemValues(items); }
    FitIsNumeric(items, count, |out|);
  }

  lemma FitIsNumeric(items: seq<Raw>, count: nat, used: nat)
    ensures ItemsFit(items, count, used) ==> ItemsNumeric(items)
  {}

  lemma ItemsStop(data: Bytes, pos: nat, items: seq<Raw>, depth: nat, count: nat, out: seq<Value>)
    requires items != [] && pos < |data| && count <= 250_000 && DecodeItems(data, pos, depth, count, out).Err?
    requires !(|out| < 100_000 && Numeric(items[0]) && count + Count(items[0]) <= 250_000)
    ensures ItemsReadTo(DecodeItems(data, pos, depth, count, out), items, pos, count, out)
  {
    hide DecodeItems, Spell, Allowed, Numeric, Count, ValueOf, ItemsAllowed, SpellItems, ItemsNumeric, ItemValues, ItemsCount, ItemsFit;
    ItemParts(items, depth, count, |out|);
  }

  lemma NoItems(data: Bytes, pos: nat, depth: nat, count: nat, out: seq<Value>)
    requires Holds(data, pos, SpellItems([])) && count <= 250_000 && |out| <= 100_000
    ensures pos < |data| && ItemsReadTo(DecodeItems(data, pos, depth, count, out), [], pos, count, out)
  {
    HoldsAt(data, pos, ['e'], 0);
    assert out + [] == out;
  }

  // ---- dictionaries ----------------------------------------------------------------------------

  predicate FieldsFit(fields: seq<RawField>, count: nat) {
    FieldsNumeric(fields) && count + FieldsCount(fields) <= 250_000
  }

  /** What one field adds to its dictionary. */
  lemma FieldParts(fields: seq<RawField>, depth: nat, count: nat)
    requires fields != []
    ensures SpellFields(fields) == SpellText(fields[0].len, fields[0].key) + (Spell(fields[0].value) + SpellFields(fields[1..]))
    ensures FieldsAllowed(fields, depth) ==>
              Measures(fields[0].len, fields[0].key) && Allowed(fields[0].value, depth + 1) && FieldsAllowed(fields[1..], depth)
    ensures FieldsCount(fields) == Count(fields[0].value) + FieldsCount(fields[1..])
    ensures FieldsNumeric(fields) <==> Numeric(fields[0].value) && FieldsNumeric(fields[1..])
    ensures FieldsNumeric(fields) ==> FieldValues(fields) == [Pair(fields[0].key, ValueOf(fields[0].value))] + FieldValues(fields[1..])
    ensures FieldsFit(fields, count) <==>
              && Numeric(fields[0].value) && count + Count(fields[0].value) <= 250_000
              && FieldsFit(fields[1..], count + Count(fields[0].value))
  {
    hide Spell, Allowed, Numeric, Count, ValueOf, SpellText, Measures;
    var text, value, rest := SpellText(fields[0].len, fields[0].key), Spell(fields[0].value), SpellFields(fields[1..]);
    assert text + value + rest == text + (value + rest);
    if FieldsAllowed(fields, depth) {
      assert FieldAllowed(fields[0], depth);
      FieldAllowedParts(fields[0], depth);
    }
  }

  lemma FieldAllowedParts(f: RawField, depth: nat)
    requires FieldAllowed(f, depth)
    ensures Measures(f.len, f.key) && Allowed(f.value, depth + 1)
  {}

  ghost predicate FieldsReadTo(r: Result<Read<seq<Pair>>, Error>, fields: seq<RawField>, pos: nat, count: nat, out: seq<Pair>) {
    && (r.Ok? <==> FieldsFit(fields, count))
    && (r.Ok? ==> r.value == Read(out + FieldValues(fields), pos + |SpellFields(fields)|, count + FieldsCount(fields)))
  }

  lemma {:induction false} FieldsRead(data: Bytes, pos: nat, fields: seq<RawField>, depth: nat, count: nat, out: seq<Pair>)
    requires Holds(data, pos, SpellFields(fields)) && FieldsAllowed(fields, depth) && count <= 250_000
    ensures pos <= |data| && FieldsReadTo(DecodePairs(data, pos, depth, count, out), fields, pos, count, out)
    decreases fields, 1
  {
    hide *;
    if fields == [] {
      NoFields(data, pos, depth, count, out);
    } else {
      var f, tail := fields[0], fields[1..];
      var start := pos + |SpellText(f.len, f.key)|;
      FieldParts(fields, depth, count);
      HoldsParts(data, pos, SpellText(f.len, f.key), Spell(f.value) + SpellFields(tail));
      HoldsParts(data, start, Spell(f.value), SpellFields(tail));
      StrReads(data, pos, f.len, f.key);
      ValueReads(data, start, f.value, depth + 1, count);
      Caps();
      NextField(data, pos, depth, count, out);
      ReadsTo(DecodeValue(data, start, depth + 1, count), f.value, start, count);
      if Numeric(f.value) && count + Count(f.value) <= 250_000 {
        var more := out + [Pair(f.key, ValueOf(f.value))];
        FieldsRead(data, start + |Spell(f.value)|, tail, depth, count + Count(f.value), more);
        FieldsNext(data, pos, fields, depth, count, out);
      } else {
        FieldsStop(data, pos, fields, depth, count, out);
      }
    }
  }

  lemma NextField(data: Bytes, pos: nat, depth: nat, count: nat, out: seq<Pair>)
    requires pos < |data| && data[pos] != 'e' && count <= MAX_VALUES && DecodeStr(data, pos).Ok?
    ensures var k := DecodeStr(data, pos).value;
            var v := DecodeValue(data, k.1, depth + 1, count);
            DecodePairs(data, pos, depth, count, out)
            == if v.Ok? then DecodePairs(data, v.value.pos, depth, v.value.count, out + [Pair(k.0, v.value.value)])
               else Err(v.error)
  {
    hide DecodeValue, DecodeStr;
  }

  lemma FieldsNext(data: Bytes, pos: nat, fields: seq<RawField>, depth: nat, count: nat, out: seq<Pair>)
    requires fields != [] && count <= 250_000 && pos < |data| && Numeric(fields[0].value) && count + Count(fields[0].value) <= 250_000
    requires var f := fields[0];
      var next, more := pos + |SpellText(f.len, f.key)| + |Spell(f.value)|, out + [Pair(f.key, ValueOf(f.value))];
      && next <= |data|
      && DecodePairs(data, pos, depth, count, out) == DecodePairs(data, next, depth, count + Count(f.value), more)
      && FieldsReadTo(DecodePairs(data, next, depth, count + Count(f.value), more), fields[1..], next, count + Count(f.value), more)
    ensures FieldsReadTo(DecodePairs(data, pos, depth, count, out), fields, pos, count, out)
  {
    hide DecodePairs, Spell, SpellText, Allowed, Numeric, Count, ValueOf, FieldsAllowed, SpellFields, FieldsNumeric, FieldValues, FieldsCount, FieldsFit;
    FieldParts(fields, depth, count);
    var more := out + [Pair(fields[0].key, ValueOf(fields[0].value))];
    if FieldsNumeric(fields) { assert more + FieldValues(fields[1..]) == out + FieldValues(fields); }
    FieldsFitNumeric(fields, count);
  }

  lemma FieldsFitNumeric(fields: seq<RawField>, count: nat)
    ensures FieldsFit(fields, count) ==> FieldsNumeric(fields)
  {}

  lemma FieldsStop(data: Bytes, pos: nat, fields: seq<RawField>, depth: nat, count: nat, out: seq<Pair>)
    requires fields != [] && pos < |data| && count <= 250_000 && DecodePairs(data, pos, depth, count, out).Err?
    requires !(Numeric(fields[0].value) && count + Count(fields[0].value) <= 250_000)
    ensures FieldsReadTo(DecodePairs(data, pos, depth, count, out), fields, pos, count, out)
  {
    hide DecodePairs, Spell, SpellText, Allowed, Numeric, Count, ValueOf, FieldsAllowed, SpellFields, FieldsNumeric, FieldValues, FieldsCount, FieldsFit;
    FieldParts(fields, depth, count);
  }

  lemma NoFields(data: Bytes, pos: nat, depth: nat, count: nat, out: seq<Pair>)
    requires Holds(data, pos, SpellFields([])) && count <= 250_000
    ensures pos < |data| && FieldsReadTo(DecodePairs(data, pos, depth, count, out), [], pos, count, out)
  {
    HoldsAt(data, pos, ['e'], 0);
    assert out + [] == out;
  }

  // ---- exactly what is accepted -------------------------------------------------------------------

  /** The value's spelling, what it means, and where it and its count end. */
  ghost predicate Denotes(data: Bytes, pos: nat, t: Raw, depth: nat, count: nat, r: Read<Value>) {
    && Spelled(data, pos, t, depth, r.pos) && Numeric(t) && count + Count(t) <= 250_000
    && r == Read(ValueOf(t), pos + |Spell(t)|, count + Count(t))
  }

  /**
   * The decoder accepts exactly the scanner's spellings whose integers are 64-bit numbers,
   * with at most a hundred thousand items in a list and 250,000 values in all; and what it
   * returns is what the spelling means.
   */
  lemma DecodesExactly(data: Bytes, pos: nat, depth: nat, count: nat, r: Read<Value>)
    requires pos <= |data| <= MAX_INT64
    ensures DecodeValue(data, pos, depth, count) == Ok(r) <==> exists t :: Denotes(data, pos, t, depth, count, r)
  {
    hide DecodeValue, Spell, Allowed, Numeric, Count, ValueOf, InfoHash.ScanValue;
    if DecodeValue(data, pos, depth, count) == Ok(r) {
      ReaderAgreement.ValueScanned(data, pos, depth, count);
      var t := ValueScanned(data, pos, depth);
      ValueReads(data, pos, t, depth, count);
      assert Denotes(data, pos, t, depth, count, r);
    }
    if t :| Denotes(data, pos, t, depth, count, r) { ValueReads(data, pos, t, depth, count); }
  }
}
