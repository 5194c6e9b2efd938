/**
 * torrentmeta's bounded bencode decoder (BEP 3, "bencoding").
 */
module Bencode {
  import opened Common
  import opened Numerals

  const MAX_DEPTH: nat := 32
  const MAX_LIST_LEN: nat := 100_000
  const MAX_VALUES: nat := 250_000

  datatype Error =
    | TooDeep | TooManyValues | UnexpectedEnd | BadInteger | ListTooLong | BadLength | UnexpectedByte

  datatype Value =
    | IntValue(n: int)
    | StrValue(s: Bytes)
    | ListValue(items: seq<Value>)
    | DictValue(entries: map<Bytes, Value>)

  /** What was read, where reading stopped, and how many values were counted so far. */
  datatype Read<+T> = Read(value: T, pos: nat, count: nat)

  /** One `key: value` pair of a dictionary, in the order it was read. */
  datatype Pair = Pair(key: Bytes, value: Value)

  /** A dictionary's map: a repeated key keeps its last value. */
  function DictOf(pairs: seq<Pair>): map<Bytes, Value> {
    if pairs == [] then map[]
    else
      var last := pairs[|pairs| - 1];
      DictOf(pairs[..|pairs| - 1])[last.key := last.value]
  }

  lemma DictOfAppend(pairs: seq<Pair>, p: Pair)
    ensures DictOf(pairs + [p]) == DictOf(pairs)[p.key := p.value]
  {
    assert (pairs + [p])[..|pairs|] == pairs;
  }

  /** Pair i is the last one with its key. */
  predicate IsLast(pairs: seq<Pair>, i: nat) {
    i < |pairs| && forall j | i < j < |pairs| :: pairs[j].key != pairs[i].key
  }

  /** A key has a value exactly when some pair has the key, and then it is the last such pair's. */
  lemma {:induction false} DictIsLast(pairs: seq<Pair>, key: Bytes, v: Value)
    ensures key in DictOf(pairs) && DictOf(pairs)[key] == v <==> exists i: nat :: i < |pairs| && IsLast(pairs, i) && pairs[i] == Pair(key, v)
    decreases |pairs|
  {
    hide IsLast;
    if pairs != [] {
      var n := |pairs| - 1;
      var head := pairs[..n];
      DictIsLast(head, key, v);
      forall i: nat
        ensures IsLast(pairs, i) <==> i == n || (i < n && IsLast(head, i) && head[i].key != pairs[n].key)
      {
        LastNext(pairs, i);
      }
      if i: nat :| i < |pairs| && IsLast(pairs, i) && pairs[i] == Pair(key, v) {
        if i < n { assert IsLast(head, i) && head[i] == Pair(key, v); }
      }
      if pairs[n].key != key {
        if i: nat :| i < n && IsLast(head, i) && head[i] == Pair(key, v) {
          assert IsLast(pairs, i) && pairs[i] == Pair(key, v);
        }
      } else {
        assert IsLast(pairs, n);
      }
    }
  }

  lemma LastNext(pairs: seq<Pair>, i: nat)
    ensures IsLast(pairs, i) ==> i < |pairs|
    ensures pairs != [] ==>
              var n := |pairs| - 1;
              (IsLast(pairs, i) <==> i == n || (i < n && IsLast(pairs[..n], i) && pairs[..n][i].key != pairs[n].key))
  {}

  // ---- the grammar, as functions ----------------------------------------------

  /** The length-prefixed string at pos, and the index past it. */
  function DecodeStr(data: Bytes, pos: nat): (r: Result<(Bytes, nat), Error>)
    requires pos <= |data|
    ensures r.Ok? ==> pos < r.value.1 <= |data|
  {
    var colon := IndexByte(data, pos, ':');
    if colon == |data| then Err(UnexpectedEnd)
    else
      match ParseInt64(data[pos..colon])
      case None => Err(BadLength)
      case Some(n) =>
        if n < 0 then Err(BadLength)
        else if n > |data| - (colon + 1) then Err(UnexpectedEnd)
        else Ok((data[colon + 1..colon + 1 + n], colon + 1 + n))
  }

  /** The integer `i<digits>e` at pos, and the index past it. */
  function DecodeInt(data: Bytes, pos: nat): (r: Result<(int, nat), Error>)
    requires pos < |data| && data[pos] == 'i'
    ensures r.Ok? ==> pos < r.value.1 <= |data|
  {
    var end := IndexByte(data, pos, 'e');
    if end == |data| then Err(UnexpectedEnd)
    else
      match ParseInt64(data[pos + 1..end])
      case None => Err(BadInteger)
      case Some(n) => Ok((n, end + 1))
  }

  /** Every accepted value consumes a byte, so values counted never exceed bytes consumed. */
  ghost predicate Paid<T>(r: Result<Read<T>, Error>, data: Bytes, pos: nat, count: nat) {
    r.Ok? ==> pos < r.value.pos <= |data| && count <= r.value.count && r.value.count - count <= r.value.pos - pos
  }

  function DecodeValue(data: Bytes, pos: nat, depth: nat, count: nat): (r: Result<Read<Value>, Error>)
    requires pos <= |data|
    ensures Paid(r, data, pos, count)
    ensures r.Ok? ==> count < r.value.count <= MAX_VALUES
    decreases |data| - pos, 0
  {
    if depth > MAX_DEPTH then Err(TooDeep)
    else if count + 1 > MAX_VALUES then Err(TooManyValues)
    else if pos >= |data| then Err(UnexpectedEnd)
    else if data[pos] == 'i' then
      match DecodeInt(data, pos)
      case Err(e) => Err(e)
      case Ok(n) => Ok(Read(IntValue(n.0), n.1, count + 1))
    else if data[pos] == 'l' then AsList(DecodeItems(data, pos + 1, depth, count + 1, []))
    else if data[pos] == 'd' then AsDict(DecodePairs(data, pos + 1, depth, count + 1, []))
    else if IsDigit(data[pos]) then
      match DecodeStr(data, pos)
      case Err(e) => Err(e)
      case Ok(s) => Ok(Read(StrValue(s.0), s.1, count + 1))
    else Err(UnexpectedByte)
  }

  function AsList(r: Result<Read<seq<Value>>, Error>): Result<Read<Value>, Error> {
    match r
    case Err(e) => Err(e)
    case Ok(a) => Ok(Read(ListValue(a.value), a.pos, a.count))
  }

  function AsDict(r: Result<Read<seq<Pair>>, Error>): Result<Read<Value>, Error> {
    match r
    case Err(e) => Err(e)
    case Ok(a) => Ok(Read(DictValue(DictOf(a.value)), a.pos, a.count))
  }

  /** The rest of a list whose first items are `out`. */
  function DecodeItems(data: Bytes, pos: nat, depth: nat, count: nat, out: seq<Value>): (r: Result<Read<seq<Value>>, Error>)
    requires pos <= |data| && count <= MAX_VALUES
    ensures Paid(r, data, pos, count)
    ensures r.Ok? ==> r.value.count <= MAX_VALUES && r.value.count - count < r.value.pos - pos
    decreases |data| - pos, 1
  {
    if pos >= |data| then Err(UnexpectedEnd)
    else if data[pos] == 'e' then Ok(Read(out, pos + 1, count))
    else if |out| >= MAX_LIST_LEN then Err(ListTooLong)
    else
      match DecodeValue(data, pos, depth + 1, count)
      case Err(e) => Err(e)
      case Ok(v) => DecodeItems(data, v.pos, depth, v.count, out + [v.value])
  }

  /** The rest of a dictionary whose first pairs are `out`. */
  function DecodePairs(data: Bytes, pos: nat, depth: nat, count: nat, out: seq<Pair>): (r: Result<Read<seq<Pair>>, Error>)
    requires pos <= |data| && count <= MAX_VALUES
    ensures Paid(r, data, pos, count)
    ensures r.Ok? ==> r.value.count <= MAX_VALUES && r.value.count - count < r.value.pos - pos
    decreases |data| - pos, 1
  {
    if pos >= |data| then Err(UnexpectedEnd)
    else if data[pos] == 'e' then Ok(Read(out, pos + 1, count))
    else
      match DecodeStr(data, pos)
      case Err(e) => Err(e)
      case Ok(k) =>
        match DecodeValue(data, k.1, depth + 1, count)
        case Err(e) => Err(e)
        case Ok(v) => DecodePairs(data, v.pos, depth, v.count, out + [Pair(k.0, v.value)])
  }

  // ---- the decoder ---------------------------------------------------------------

  class Decoder {
    const data: Bytes
    var pos: nat
    var values: nat

    constructor (data: Bytes)
      ensures this.data == data && pos == 0 && values == 0
    {
      this.data := data;
      pos, values := 0, 0;
    }

    method Str() returns (r: Result<Bytes, Error>)
      requires pos <= |data|
      modifies this`pos
      ensures pos <= |data|
      ensures match DecodeStr(data, old(pos))
              case Ok(s) => r == Ok(s.0) && pos == s.1
              case Err(e) => r == Err(e)
    {
      var colon := IndexByte(data, pos, ':');
      if colon == |data| { return Err(UnexpectedEnd); }
      match ParseInt64(data[pos..colon])
      case None => return Err(BadLength);
      case Some(n) =>
        if n < 0 { return Err(BadLength); }
        var start := colon + 1;
        if n > |data| - start { return Err(UnexpectedEnd); }
        pos := start + n;
        return Ok(data[start..pos]);
    }

    /** Decodes the value at pos; the outcome and the new position are the grammar's. */
    method Value(depth: nat) returns (r: Result<Value, Error>)
      requires pos <= |data| && values <= MAX_VALUES
      modifies this
      ensures pos <= |data|
      ensures match DecodeValue(data, old(pos), depth, old(values))
              case Ok(v) => r == Ok(v.value) && pos == v.pos && values == v.count
              case Err(e) => r == Err(e)
      decreases |data| - pos, 1
    {
      if depth > MAX_DEPTH { return Err(TooDeep); }
      values := values + 1;
      if values > MAX_VALUES { return Err(TooManyValues); }
      if pos >= |data| { return Err(UnexpectedEnd); }
      var c := data[pos];
      if c == 'i' {
        var end := IndexByte(data, pos, 'e');
        if end == |data| { return Err(UnexpectedEnd); }
        match ParseInt64(data[pos + 1..end])
        case None => return Err(BadInteger);
        case Some(n) =>
          pos := end + 1;
          return Ok(IntValue(n));
      } else if c == 'l' {
        r := List(depth);
      } else if c == 'd' {
        r := Dict(depth);
      } else if IsDigit(c) {
        var s := Str();
        return match s case Ok(bytes) => Ok(StrValue(bytes)) case Err(e) => Err(e);
      } else {
        return Err(UnexpectedByte);
      }
    }

    method List(depth: nat) returns (r: Result<Value, Error>)
      requires pos < |data| && values <= MAX_VALUES
      modifies this
      ensures pos <= |data|
      ensures match AsList(DecodeItems(data, old(pos) + 1, depth, old(values), []))
              case Ok(v) => r == Ok(v.value) && pos == v.pos && values == v.count
              case Err(e) => r == Err(e)
      decreases |data| - pos, 0
    {
      ghost var want := DecodeItems(data, pos + 1, depth, values, []);
      pos := pos + 1;
      var out: seq<Value> := [];
      while true
        invariant old(pos) < pos <= |data| && values <= MAX_VALUES
        invariant want == DecodeItems(data, pos, depth, values, out)
        decreases |data| - pos
      {
        if pos >= |data| { return Err(UnexpectedEnd); }
        if data[pos] == 'e' {
          pos := pos + 1;
          return Ok(ListValue(out));
        }
        if |out| >= MAX_LIST_LEN { return Err(ListTooLong); }
        var v := Value(depth + 1);
        match v
        case Err(e) => return Err(e);
        case Ok(item) => out := out + [item];
      }
    }

    method Dict(depth: nat) returns (r: Result<Value, Error>)
      requires pos < |data| && values <= MAX_VALUES
      modifies this
      ensures pos <= |data|
      ensures match AsDict(DecodePairs(data, old(pos) + 1, depth, old(values), []))
              case Ok(v) => r == Ok(v.value) && pos == v.pos && values == v.count
              case Err(e) => r == Err(e)
      decreases |data| - pos, 0
    {
      ghost var want := DecodePairs(data, pos + 1, depth, values, []);
      pos := pos + 1;
      var out: map<Bytes, Value> := map[];
      ghost var pairs: seq<Pair> := [];
      while true
        invariant old(pos) < pos <= |data| && values <= MAX_VALUES
        invariant want == DecodePairs(data, pos, depth, values, pairs)
        invariant out == DictOf(pairs)
        decreases |data| - pos
      {
        if pos >= |data| { return Err(UnexpectedEnd); }
        if data[pos] == 'e' {
          pos := pos + 1;
          return Ok(DictValue(out));
        }
        var k := Str();
        if k.Err? { return Err(k.error); }
        var v := Value(depth + 1);
        match v
        case Err(e) => return Err(e);
        case Ok(item) =>
          out := out[k.value := item];
          DictOfAppend(pairs, Pair(k.value, item));
          pairs := pairs + [Pair(k.value, item)];
      }
    }
  }
}
