/**
 * Decoding undoes BEP 3 encoding, for exactly the values within the decoder's
 * caps, and whatever bytes surround the encoding.
 */
module BencodeRoundTrip {
  import opened Common
  import opened Numerals
  import opened Bencode

  /** A bencoded value as it is written: dictionary keys in any order, repeats included. */
  datatype Term =
    | Int(n: int)
    | Str(s: Bytes)
    | Lst(items: seq<Term>)
    | Dct(fields: seq<Field>)

  datatype Field = Field(key: Bytes, value: Term)

  // ---- writing ---------------------------------------------------------------------

  function EncodeStr(s: Bytes): Bytes {
    Decimal(|s|) + [':'] + s
  }

  function Encode(t: Term): Bytes {
    match t
    case Int(n) => ['i'] + Decimal(n) + ['e']
    case Str(s) => EncodeStr(s)
    case Lst(items) => ['l'] + EncodeItems(items)
    case Dct(fields) => ['d'] + EncodeFields(fields)
  }

  /** The items, and the byte that closes the container. */
  function EncodeItems(items: seq<Term>): Bytes {
    if items == [] then ['e'] else Encode(items[0]) + EncodeItems(items[1..])
  }

  function EncodeFields(fields: seq<Field>): Bytes {
    if fields == [] then ['e']
    else EncodeStr(fields[0].key) + (Encode(fields[0].value) + EncodeFields(fields[1..]))
  }

  // ---- meaning and size ---------------------------------------------------------------

  function Meaning(t: Term): Value {
    match t
    case Int(n) => IntValue(n)
    case Str(s) => StrValue(s)
    case Lst(items) => ListValue(Meanings(items))
    case Dct(fields) => DictValue(DictOf(FieldMeanings(fields)))
  }

  function Meanings(items: seq<Term>): seq<Value> {
    if items == [] then [] else [Meaning(items[0])] + Meanings(items[1..])
  }

  function FieldMeanings(fields: seq<Field>): seq<Pair> {
    if fields == [] then [] else [Pair(fields[0].key, Meaning(fields[0].value))] + FieldMeanings(fields[1..])
  }

  function Max(a: nat, b: nat): nat {
    if a < b then b else a
  }

  /** Nesting below the value itself. */
  function Height(t: Term): nat {
    match t
    case Int(_) => 0
    case Str(_) => 0
    case Lst(items) => HeightItems(items)
    case Dct(fields) => HeightFields(fields)
  }

  function HeightItems(items: seq<Term>): nat {
    if items == [] then 0 else Max(1 + Height(items[0]), HeightItems(items[1..]))
  }

  function HeightFields(fields: seq<Field>): nat {
    if fields == [] then 0 else Max(1 + Height(fields[0].value), HeightFields(fields[1..]))
  }

  /** Values counted: dictionary keys are free. */
  function Size(t: Term): (n: nat)
    ensures n >= 1
  {
    match t
    case Int(_) => 1
    case Str(_) => 1
    case Lst(items) => 1 + SizeItems(items)
    case Dct(fields) => 1 + SizeFields(fields)
  }

  function SizeItems(items: seq<Term>): nat {
    if items == [] then 0 else Size(items[0]) + SizeItems(items[1..])
  }

  function SizeFields(fields: seq<Field>): nat {
    if fields == [] then 0 else Size(fields[0].value) + SizeFields(fields[1..])
  }

  /** Integers and string lengths fit 64 bits and no list is over the cap. */
  predicate Sized(t: Term) {
    match t
    case Int(n) => InInt64(n)
    case Str(s) => |s| <= MAX_INT64
    case Lst(items) => |items| <= MAX_LIST_LEN && SizedItems(items)
    case Dct(fields) => SizedFields(fields)
  }

  predicate SizedItems(items: seq<Term>) {
    items == [] || (Sized(items[0]) && SizedItems(items[1..]))
  }

  predicate SizedFields(fields: seq<Field>) {
    fields == [] || (|fields[0].key| <= MAX_INT64 && Sized(fields[0].value) && SizedFields(fields[1..]))
  }

  /** The term is within every cap when read at this depth with this many values counted. */
  predicate WithinCaps(t: Term, depth: nat, count: nat) {
    Sized(t) && depth + Height(t) <= MAX_DEPTH && count + Size(t) <= MAX_VALUES
  }

  // ---- tokens ----------------------------------------------------------------------------

  /** `s` is what data holds from pos on. */
  ghost predicate Holds(data: Bytes, pos: nat, s: Bytes) {
    pos + |s| <= |data| && data[pos..pos + |s|] == s
  }

  lemma HoldsParts(data: Bytes, pos: nat, s: Bytes, t: Bytes)
    requires Holds(data, pos, s + t)
    ensures Holds(data, pos, s) && Holds(data, pos + |s|, t)
  {
    assert data[pos..pos + |s|] == data[pos..pos + |s + t|][..|s|];
    assert (s + t)[..|s|] == s && (s + t)[|s|..] == t;
    assert data[pos + |s|..pos + |s| + |t|] == data[pos..pos + |s + t|][|s|..];
  }

  lemma HoldsAt(data: Bytes, pos: nat, s: Bytes, i: nat)
    requires Holds(data, pos, s) && i < |s|
    ensures data[pos + i] == s[i]
  {
    assert data[pos + i] == data[pos..pos + |s|][i];
  }

  /** The numeral before a delimiter byte is found and read back. */
  lemma NumeralHeld(data: Bytes, pos: nat, n: int, c: Byte)
    requires Holds(data, pos, Decimal(n) + [c]) && !IsDigit(c) && c != '-'
    ensures IndexByte(data, pos, c) == pos + |Decimal(n)| < |data|
    ensures ParseInt64(data[pos..pos + |Decimal(n)|]) == if InInt64(n) then Some(n) else None
  {
    hide Decimal, ParseInt64, IndexByte;
    var s := Decimal(n);
    DecimalParses(n);
    HoldsParts(data, pos, s, [c]);
    assert data[pos..pos + |s|] == s;
    HoldsAt(data, pos + |s|, [c], 0);
    forall j | pos <= j < pos + |s| ensures data[j] != c {
      HoldsAt(data, pos, s, j - pos);
    }
    IndexByteIs(data, pos, c, pos + |s|);
  }

  lemma StrHeld(data: Bytes, pos: nat, s: Bytes)
    requires Holds(data, pos, EncodeStr(s))
    ensures pos < |data| && IsDigit(data[pos])
    ensures DecodeStr(data, pos) ==
              if |s| <= MAX_INT64 then Ok((s, pos + |EncodeStr(s)|)) else Err(BadLength)
  {
    hide Decimal, ParseInt64, IndexByte;
    var d := Decimal(|s|);
    HoldsParts(data, pos, d + [':'], s);
    NumeralHeld(data, pos, |s|, ':');
    HoldsAt(data, pos, d + [':'], 0);
    DecimalParses(|s|);
  }

  lemma IntHeld(data: Bytes, pos: nat, n: int)
    requires Holds(data, pos, ['i'] + Decimal(n) + ['e'])
    ensures pos < |data| && data[pos] == 'i'
    ensures DecodeInt(data, pos) == if InInt64(n) then Ok((n, pos + |Decimal(n)| + 2)) else Err(BadInteger)
  {
    hide Decimal, ParseInt64;
    var s := Decimal(n) + ['e'];
    assert ['i'] + Decimal(n) + ['e'] == ['i'] + s;
    HoldsParts(data, pos, ['i'], s);
    HoldsAt(data, pos, ['i'], 0);
    NumeralHeld(data, pos + 1, n, 'e');
  }

  // ---- the round trip ---------------------------------------------------------------------

  /**
   * Reading the encoding of a term, at any depth and count and inside any data:
   * the term's meaning and exactly its end when the term is within the caps,
   * an error when it is not.
   */
  lemma {:induction false} DecodeEncoded(data: Bytes, pos: nat, t: Term, depth: nat, count: nat)
    requires Holds(data, pos, Encode(t))
    ensures pos <= |data|
    ensures DecodeValue(data, pos, depth, count).Ok? <==> WithinCaps(t, depth, count)
    ensures WithinCaps(t, depth, count) ==>
              DecodeValue(data, pos, depth, count) == Ok(Read(Meaning(t), pos + |Encode(t)|, count + Size(t)))
    decreases t, 0
  {
    hide DecodeStr, DecodeInt;
    match t
    case Int(n) => IntHeld(data, pos, n);
    case Str(s) => StrHeld(data, pos, s);
    case Lst(items) => DecodeEncodedList(data, pos, items, depth, count);
    case Dct(fields) => DecodeEncodedDict(data, pos, fields, depth, count);
  }

  lemma {:induction false} DecodeEncodedList(data: Bytes, pos: nat, items: seq<Term>, depth: nat, count: nat)
    requires Holds(data, pos, Encode(Lst(items)))
    ensures DecodeValue(data, pos, depth, count).Ok? <==> WithinCaps(Lst(items), depth, count)
    ensures WithinCaps(Lst(items), depth, count) ==>
              DecodeValue(data, pos, depth, count)
                == Ok(Read(Meaning(Lst(items)), pos + |Encode(Lst(items))|, count + Size(Lst(items))))
    decreases items, 2
  {
    hide DecodeStr, DecodeInt, DecodeItems, DecodePairs, EncodeItems, Meanings, SizeItems, HeightItems, SizedItems, Holds;
    HoldsParts(data, pos, ['l'], EncodeItems(items));
    HoldsAt(data, pos, ['l'], 0);
    if depth <= MAX_DEPTH && count + 1 <= MAX_VALUES {
      DecodeEncodedItems(data, pos + 1, items, depth, count + 1, []);
      assert [] + Meanings(items) == Meanings(items);
    }
  }

  lemma {:induction false} DecodeEncodedItems(data: Bytes, pos: nat, items: seq<Term>, depth: nat, count: nat, out: seq<Value>)
    requires Holds(data, pos, EncodeItems(items)) && depth <= MAX_DEPTH && count <= MAX_VALUES && |out| <= MAX_LIST_LEN
    ensures pos <= |data|
    ensures DecodeItems(data, pos, depth, count, out).Ok? <==> ItemsWithinCaps(items, depth, count, |out|)
    ensures ItemsWithinCaps(items, depth, count, |out|) ==>
              DecodeItems(data, pos, depth, count, out)
                == Ok(Read(out + Meanings(items), pos + |EncodeItems(items)|, count + SizeItems(items)))
    decreases items, 1
  {
    hide Encode, Meaning, Sized, Height, Size, DecodeValue;
    if items == [] {
      HoldsAt(data, pos, ['e'], 0);
      assert out + [] == out;
    } else {
      EncodedFirstByte(data, pos, items[0], EncodeItems(items[1..]));
      DecodeEncodedItem(data, pos, items, depth, count, out);
    }
  }

  /** No encoding starts with the byte that closes a container. */
  lemma EncodedFirstByte(data: Bytes, pos: nat, t: Term, rest: Bytes)
    requires Holds(data, pos, Encode(t) + rest)
    ensures pos < |data| && data[pos] != 'e'
    ensures Holds(data, pos, Encode(t)) && Holds(data, pos + |Encode(t)|, rest)
  {
    HoldsParts(data, pos, Encode(t), rest);
    if t.Str? {
      StrHeld(data, pos, t.s);
    } else {
      HoldsAt(data, pos, Encode(t), 0);
    }
  }

  /** Room for the items in their container, whose first `used` items are already read. */
  predicate ItemsWithinCaps(items: seq<Term>, depth: nat, count: nat, used: nat) {
    && SizedItems(items) && depth + HeightItems(items) <= MAX_DEPTH
    && count + SizeItems(items) <= MAX_VALUES && used + |items| <= MAX_LIST_LEN
  }

  lemma {:induction false} DecodeEncodedItem(data: Bytes, pos: nat, items: seq<Term>, depth: nat, count: nat, out: seq<Value>)
    requires items != [] && depth <= MAX_DEPTH && count <= MAX_VALUES && |out| <= MAX_LIST_LEN
    requires Holds(data, pos, Encode(items[0])) && Holds(data, pos + |Encode(items[0])|, EncodeItems(items[1..]))
    requires pos < |data| && data[pos] != 'e'
    ensures DecodeItems(data, pos, depth, count, out).Ok? <==> ItemsWithinCaps(items, depth, count, |out|)
    ensures ItemsWithinCaps(items, depth, count, |out|) ==>
              DecodeItems(data, pos, depth, count, out)
                == Ok(Read(out + Meanings(items), pos + |EncodeItems(items)|, count + SizeItems(items)))
    decreases items, 0
  {
    hide *;
    var head, tail := items[0], items[1..];
    NextItem(data, pos, depth, count, out);
    ItemParts(items, depth, count, |out|);
    if |out| < MAX_LIST_LEN {
      DecodeEncoded(data, pos, head, depth + 1, count);
      if WithinCaps(head, depth + 1, count) {
        WithinCapsCount(head, depth + 1, count);
        var more := out + [Meaning(head)];
        DecodeEncodedItems(data, pos + |Encode(head)|, tail, depth, count + Size(head), more);
        assert more + Meanings(tail) == out + Meanings(items);
      }
    }
  }

  lemma WithinCapsCount(t: Term, depth: nat, count: nat)
    requires WithinCaps(t, depth, count)
    ensures count + Size(t) <= MAX_VALUES
  {}

  /** What one item adds to its list's encoding, meaning, size and caps. */
  lemma ItemParts(items: seq<Term>, depth: nat, count: nat, used: nat)
    requires items != [] && depth <= MAX_DEPTH
    ensures EncodeItems(items) == Encode(items[0]) + EncodeItems(items[1..])
    ensures Meanings(items) == [Meaning(items[0])] + Meanings(items[1..])
    ensures SizeItems(items) == Size(items[0]) + SizeItems(items[1..])
    ensures ItemsWithinCaps(items, depth, count, used) <==>
              && used < MAX_LIST_LEN && WithinCaps(items[0], depth + 1, count)
              && ItemsWithinCaps(items[1..], depth, count + Size(items[0]), used + 1)
  {
    hide Encode, Meaning, Sized, Height, Size;
  }

  /** One step of reading a list. */
  lemma NextItem(data: Bytes, pos: nat, depth: nat, count: nat, out: seq<Value>)
    requires pos < |data| && data[pos] != 'e' && count <= MAX_VALUES
    ensures |out| >= MAX_LIST_LEN ==> DecodeItems(data, pos, depth, count, out).Err?
    ensures |out| < MAX_LIST_LEN ==>
              var v := DecodeValue(data, pos, depth + 1, count);
              DecodeItems(data, pos, depth, count, out)
                == if v.Ok? then DecodeItems(data, v.value.pos, depth, v.value.count, out + [v.value.value])
                   else Err(v.error)
  {
    hide DecodeValue;
  }

  lemma {:induction false} DecodeEncodedDict(data: Bytes, pos: nat, fields: seq<Field>, depth: nat, count: nat)
    requires Holds(data, pos, Encode(Dct(fields)))
    ensures DecodeValue(data, pos, depth, count).Ok? <==> WithinCaps(Dct(fields), depth, count)
    ensures WithinCaps(Dct(fields), depth, count) ==>
              DecodeValue(data, pos, depth, count)
                == Ok(Read(Meaning(Dct(fields)), pos + |Encode(Dct(fields))|, count + Size(Dct(fields))))
    decreases fields, 2
  {
    hide DecodeStr, DecodeInt, DecodeItems, DecodePairs, EncodeFields, FieldMeanings, SizeFields, HeightFields, SizedFields, DictOf, Holds;
    HoldsParts(data, pos, ['d'], EncodeFields(fields));
    HoldsAt(data, pos, ['d'], 0);
    if depth <= MAX_DEPTH && count + 1 <= MAX_VALUES {
      DecodeEncodedFields(data, pos + 1, fields, depth, count + 1, []);
      assert [] + FieldMeanings(fields) == FieldMeanings(fields);
    }
  }

  predicate FieldsWithinCaps(fields: seq<Field>, depth: nat, count: nat) {
    SizedFields(fields) && depth + HeightFields(fields) <= MAX_DEPTH && count + SizeFields(fields) <= MAX_VALUES
  }

  lemma {:induction false} DecodeEncodedFields(data: Bytes, pos: nat, fields: seq<Field>, depth: nat, count: nat, out: seq<Pair>)
    requires Holds(data, pos, EncodeFields(fields)) && depth <= MAX_DEPTH && count <= MAX_VALUES
    ensures pos <= |data|
    ensures DecodePairs(data, pos, depth, count, out).Ok? <==> FieldsWithinCaps(fields, depth, count)
    ensures FieldsWithinCaps(fields, depth, count) ==>
              DecodePairs(data, pos, depth, count, out)
                == Ok(Read(out + FieldMeanings(fields), pos + |EncodeFields(fields)|, count + SizeFields(fields)))
    decreases fields, 1
  {
    hide Encode, Meaning, Sized, Height, Size, DecodeValue, DecodeStr;
    if fields == [] {
      HoldsAt(data, pos, ['e'], 0);
      assert out + [] == out;
    } else {
      DecodeEncodedField(data, pos, fields, depth, count, out);
    }
  }

  lemma {:induction false} DecodeEncodedField(data: Bytes, pos: nat, fields: seq<Field>, depth: nat, count: nat, out: seq<Pair>)
    requires fields != [] && Holds(data, pos, EncodeFields(fields)) && depth <= MAX_DEPTH && count <= MAX_VALUES
    ensures DecodePairs(data, pos, depth, count, out).Ok? <==> FieldsWithinCaps(fields, depth, count)
    ensures FieldsWithinCaps(fields, depth, count) ==>
              DecodePairs(data, pos, depth, count, out)
                == Ok(Read(out + FieldMeanings(fields), pos + |EncodeFields(fields)|, count + SizeFields(fields)))
    decreases fields, 0
  {
    hide *;
    var head, tail := fields[0], fields[1..];
    FieldParts(fields, depth, count);
    HoldsParts(data, pos, EncodeStr(head.key), Encode(head.value) + EncodeFields(tail));
    StrHeld(data, pos, head.key);
    NextPair(data, pos, depth, count, out);
    if |head.key| <= MAX_INT64 {
      var start := pos + |EncodeStr(head.key)|;
      HoldsParts(data, start, Encode(head.value), EncodeFields(tail));
      DecodeEncoded(data, start, head.value, depth + 1, count);
      if WithinCaps(head.value, depth + 1, count) {
        WithinCapsCount(head.value, depth + 1, count);
        var more := out + [Pair(head.key, Meaning(head.value))];
        DecodeEncodedFields(data, start + |Encode(head.value)|, tail, depth, count + Size(head.value), more);
        assert more + FieldMeanings(tail) == out + FieldMeanings(fields);
      }
    }
  }

  /** What one field adds to its dictionary's encoding, meaning, size and caps. */
  lemma FieldParts(fields: seq<Field>, depth: nat, count: nat)
    requires fields != [] && depth <= MAX_DEPTH
    ensures EncodeFields(fields)
         == EncodeStr(fields[0].key) + (Encode(fields[0].value) + EncodeFields(fields[1..]))
    ensures FieldMeanings(fields) == [Pair(fields[0].key, Meaning(fields[0].value))] + FieldMeanings(fields[1..])
    ensures SizeFields(fields) == Size(fields[0].value) + SizeFields(fields[1..])
    ensures FieldsWithinCaps(fields, depth, count) <==>
              && |fields[0].key| <= MAX_INT64 && WithinCaps(fields[0].value, depth + 1, count)
              && FieldsWithinCaps(fields[1..], depth, count + Size(fields[0].value))
  {
    hide Encode, Meaning, Sized, Height, Size;
  }

  /** One step of reading a dictionary that starts with a key. */
  lemma NextPair(data: Bytes, pos: nat, depth: nat, count: nat, out: seq<Pair>)
    requires pos < |data| && IsDigit(data[pos]) && count <= MAX_VALUES
    ensures DecodeStr(data, pos).Err? ==> DecodePairs(data, pos, depth, count, out).Err?
    ensures DecodeStr(data, pos).Ok? ==>
              var k := DecodeStr(data, pos).value;
              var v := DecodeValue(data, k.1, depth + 1, count);
              DecodePairs(data, pos, depth, count, out)
                == if v.Ok? then DecodePairs(data, v.value.pos, depth, v.value.count, out + [Pair(k.0, v.value.value)])
                   else Err(v.error)
  {
    hide DecodeValue, DecodeStr;
  }

  /** The whole-input form: bytes before and after the encoding never matter. */
  lemma RoundTrip(before: Bytes, t: Term, after: Bytes)
    ensures var r := DecodeValue(before + Encode(t) + after, |before|, 0, 0);
            if WithinCaps(t, 0, 0) then r == Ok(Read(Meaning(t), |before| + |Encode(t)|, Size(t))) else r.Err?
  {
    hide Encode, DecodeValue, Meaning, Size, WithinCaps;
    var data := before + Encode(t) + after;
    assert Holds(data, |before|, Encode(t));
    DecodeEncoded(data, |before|, t, 0, 0);
  }
}
