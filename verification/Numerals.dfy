/** Bytes and the decimal integers strconv reads out of them. */
module Numerals {
  import opened Common

  type Byte = c: char | c as int < 256 witness 'a'

  type Bytes = seq<Byte>

  const MIN_INT64: int := -0x8000_0000_0000_0000
  const MAX_INT64: int := 0x7fff_ffff_ffff_ffff

  predicate InInt64(n: int) {
    MIN_INT64 <= n <= MAX_INT64
  }

  /** The value a 64-bit signed operation leaves when its exact result is n. */
  function Wrap64(n: int): (r: int)
    ensures InInt64(r)
    ensures InInt64(n) ==> r == n
  {
    (n + 0x8000_0000_0000_0000) % 0x1_0000_0000_0000_0000 - 0x8000_0000_0000_0000
  }

  predicate IsDigit(c: Byte) {
    '0' as int <= c as int <= '9' as int
  }

  predicate AllDigits(s: Bytes) {
    forall i | 0 <= i < |s| :: IsDigit(s[i])
  }

  function DigitValue(c: Byte): nat
    requires IsDigit(c)
  {
    (c as int) - ('0' as int)
  }

  function DigitsValue(s: Bytes): nat
    requires AllDigits(s)
  {
    if s == [] then 0 else DigitsValue(s[..|s| - 1]) * 10 + DigitValue(s[|s| - 1])
  }

  /** strconv.ParseInt(s, 10, 64), and strconv.Atoi where int has 64 bits. */
  function ParseInt64(s: Bytes): Option<int> {
    if s == [] then None
    else
      var digits := if s[0] == '-' || s[0] == '+' then s[1..] else s;
      if digits == [] || !AllDigits(digits) then None
      else
        var n: int := if s[0] == '-' then 0 - DigitsValue(digits) else DigitsValue(digits);
        if InInt64(n) then Some(n) else None
  }

  /** First index at or after `from` that holds c; |data| when there is none. */
  function IndexByte(data: Bytes, from: nat, c: Byte): (i: nat)
    requires from <= |data|
    ensures from <= i <= |data|
    ensures i < |data| ==> data[i] == c
    decreases |data| - from
  {
    if from == |data| || data[from] == c then from else IndexByte(data, from + 1, c)
  }

  lemma {:induction false} IndexByteIsFirst(data: Bytes, from: nat, c: Byte, j: nat)
    requires from <= j && from <= |data| && j < IndexByte(data, from, c)
    ensures data[j] != c
    decreases |data| - from
  {
    if from < j { IndexByteIsFirst(data, from + 1, c, j); }
  }

  lemma {:induction false} IndexByteIs(data: Bytes, from: nat, c: Byte, i: nat)
    requires from <= i < |data| && data[i] == c
    requires forall j | from <= j < i :: data[j] != c
    ensures IndexByte(data, from, c) == i
    decreases i - from
  {
    if from < i { IndexByteIs(data, from + 1, c, i); }
  }

  // ---- decimal numerals ------------------------------------------------------

  function NatDigits(n: nat): (s: Bytes)
    ensures s != [] && AllDigits(s)
    ensures DigitsValue(s) == n
  {
    var last: Byte := (('0' as int) + n % 10) as char;
    if n < 10 then
      assert [last][..0] == [];
      [last]
    else
      var s := NatDigits(n / 10);
      assert (s + [last])[..|s|] == s;
      s + [last]
  }

  function Decimal(n: int): Bytes {
    if n < 0 then ['-'] + NatDigits(-n) else NatDigits(n)
  }

  lemma DecimalParses(n: int)
    ensures ParseInt64(Decimal(n)) == if InInt64(n) then Some(n) else None
    ensures forall i | 0 <= i < |Decimal(n)| :: IsDigit(Decimal(n)[i]) || Decimal(n)[i] == '-'
    ensures Decimal(n) != [] && (n >= 0 ==> AllDigits(Decimal(n)))
  {
    if n < 0 {
      assert Decimal(n)[1..] == NatDigits(-n);
    } else {
      assert IsDigit(NatDigits(n)[0]);
    }
  }

  lemma {:induction false} ShortDigits(n: nat)
    ensures |NatDigits(n)| <= 1 + n / 10
  {
    if n >= 10 {
      ShortDigits(n / 10);
      assert n / 10 >= 1;
    }
  }

  // ---- every spelling of a number -----------------------------------------------

  function Zeros(k: nat): (s: Bytes)
    ensures |s| == k && forall i | 0 <= i < k :: s[i] == '0'
  {
    if k == 0 then [] else Zeros(k - 1) + ['0']
  }

  lemma DigitsSnoc(s: Bytes, c: Byte)
    requires AllDigits(s) && IsDigit(c)
    ensures AllDigits(s + [c]) && DigitsValue(s + [c]) == DigitsValue(s) * 10 + DigitValue(c)
  {
    assert (s + [c])[..|s|] == s;
  }

  lemma {:induction false} PaddedValue(zeros: nat, m: nat)
    ensures AllDigits(Zeros(zeros) + NatDigits(m)) && DigitsValue(Zeros(zeros) + NatDigits(m)) == m
    decreases m
  {
    var last: Byte := (('0' as int) + m % 10) as char;
    if m < 10 {
      ZerosValue(zeros);
      DigitsSnoc(Zeros(zeros), last);
      assert NatDigits(m) == [last];
    } else {
      PaddedValue(zeros, m / 10);
      DigitsSnoc(Zeros(zeros) + NatDigits(m / 10), last);
      assert Zeros(zeros) + NatDigits(m) == Zeros(zeros) + NatDigits(m / 10) + [last];
    }
  }

  lemma {:induction false} ZerosValue(k: nat)
    ensures AllDigits(Zeros(k)) && DigitsValue(Zeros(k)) == 0
  {
    if k > 0 {
      ZerosValue(k - 1);
      DigitsSnoc(Zeros(k - 1), '0');
    }
  }

  /** Digits are zeros and the numeral of their value. */
  lemma {:induction false} DigitsArePadded(s: Bytes) returns (zeros: nat)
    requires s != [] && AllDigits(s)
    ensures s == Zeros(zeros) + NatDigits(DigitsValue(s))
    decreases |s|
  {
    hide NatDigits, DigitsValue, AllDigits;
    var head, c := s[..|s| - 1], s[|s| - 1];
    assert s == head + [c];
    HeadDigits(s);
    NumeralOf(DigitValue(c));
    if head == [] {
      zeros := 0;
      NoDigits();
    } else {
      zeros := DigitsArePadded(head);
      var v := DigitsValue(head);
      DigitsSnoc(head, c);
      if v == 0 {
        NumeralOf(0);
        assert head == Zeros(zeros + 1);
        zeros := zeros + 1;
      } else {
        NumeralNext(v, c);
      }
    }
  }

  lemma NoDigits()
    ensures DigitsValue([]) == 0
  {}

  lemma HeadDigits(s: Bytes)
    requires s != [] && AllDigits(s)
    ensures AllDigits(s[..|s| - 1]) && IsDigit(s[|s| - 1])
    ensures DigitsValue(s) == DigitsValue(s[..|s| - 1]) * 10 + DigitValue(s[|s| - 1])
  {}

  lemma NumeralOf(d: nat)
    requires d < 10
    ensures var c: Byte := (('0' as int) + d) as char; IsDigit(c) && NatDigits(d) == [c]
  {}

  lemma NumeralNext(v: nat, c: Byte)
    requires v > 0 && IsDigit(c)
    ensures NatDigits(v * 10 + DigitValue(c)) == NatDigits(v) + [c]
  {
    var m := v * 10 + DigitValue(c);
    assert m / 10 == v && m % 10 == DigitValue(c) && m >= 10;
  }

  /** A sign or none, any zeros, and the numeral. */
  predicate SpellsNumber(s: Bytes, sign: Bytes, zeros: nat, n: int) {
    (sign == [] || sign == ['+'] || sign == ['-']) && (sign == ['-'] ==> n <= 0) && (sign != ['-'] ==> n >= 0)
    && s == sign + (Zeros(zeros) + NatDigits(if n < 0 then -n else n))
  }

  /** A number is read exactly from its spellings, when it fits 64 bits. */
  lemma ParsesExactly(s: Bytes, n: int)
    ensures ParseInt64(s) == Some(n) <==> InInt64(n) && exists sign, zeros :: SpellsNumber(s, sign, zeros, n)
  {
    hide SpellsNumber, ParseInt64;
    if ParseInt64(s) == Some(n) { var sign, zeros := ReadSpelled(s, n); }
    if InInt64(n) && exists sign, zeros :: SpellsNumber(s, sign, zeros, n) {
      var sign, zeros :| SpellsNumber(s, sign, zeros, n);
      SpelledRead(s, sign, zeros, n);
    }
  }

  lemma ReadSpelled(s: Bytes, n: int) returns (sign: Bytes, zeros: nat)
    requires ParseInt64(s) == Some(n)
    ensures InInt64(n) && SpellsNumber(s, sign, zeros, n)
  {
    hide NatDigits, DigitsValue, AllDigits;
    var signed := s[0] == '-' || s[0] == '+';
    var digits := if signed then s[1..] else s;
    sign := if signed then [s[0]] else [];
    zeros := DigitsArePadded(digits);
    assert s == sign + digits;
  }

  lemma SpelledRead(s: Bytes, sign: Bytes, zeros: nat, n: int)
    requires InInt64(n) && SpellsNumber(s, sign, zeros, n)
    ensures ParseInt64(s) == Some(n)
  {
    hide NatDigits, DigitsValue, Zeros;
    var digits := Zeros(zeros) + NatDigits(if n < 0 then -n else n);
    PaddedValue(zeros, if n < 0 then -n else n);
    assert digits != [] && IsDigit(digits[0]);
    if sign != [] { assert s[1..] == digits && s[0] == sign[0]; } else { assert s == digits; }
  }
}
