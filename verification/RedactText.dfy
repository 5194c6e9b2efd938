/**
 * Decoded text that remembers where every byte of it came from.
 *
 * Detectors read decoded text; what they find has to be cut out of the page as
 * it is spelled there. Resolving one character reference is left to a function
 * given by the caller.
 */
module RedactText {
  import opened Common
  import opened EditMerge

  /** Ties decoded [dec, dec + n) to source [src, end): byte for byte, or all to one reference. */
  datatype Run = Run(dec: nat, n: nat, src: nat, end: nat, ident: bool)

  /** One decoded byte and the source bytes it came from. */
  datatype Cell = Cell(c: char, src: nat, end: nat)

  function OwnCells(page: string, start: nat, end: nat): (r: seq<Cell>)
    requires start <= end <= |page|
    ensures |r| == end - start && forall d | 0 <= d < |r| :: r[d] == Cell(page[start + d], start + d, start + d + 1)
  {
    seq(end - start, d requires 0 <= d < end - start => Cell(page[start + d], start + d, start + d + 1))
  }

  function RefCells(decoded: string, start: nat, end: nat): (r: seq<Cell>)
    ensures |r| == |decoded| && forall d | 0 <= d < |r| :: r[d] == Cell(decoded[d], start, end)
  {
    seq(|decoded|, d requires 0 <= d < |decoded| => Cell(decoded[d], start, end))
  }

  // ---- character references ---------------------------------------------------------------

  predicate IsDigit(c: char) { '0' <= c <= '9' }
  predicate IsLetter(c: char) { 'a' <= c <= 'z' || 'A' <= c <= 'Z' }
  predicate IsHexDigit(c: char) { IsDigit(c) || 'a' <= c <= 'f' || 'A' <= c <= 'F' }
  predicate IsAlnum(c: char) { IsDigit(c) || IsLetter(c) }

  /** How many of at most `most` characters from i on are of the class. */
  function RunLength(page: string, i: nat, end: nat, most: nat, class_: char -> bool): (n: nat)
    requires end <= |page|
    ensures n <= most && (n > 0 ==> i + n <= end)
    decreases most
  {
    if most == 0 || i >= end || !class_(page[i]) then 0 else 1 + RunLength(page, i + 1, end, most - 1, class_)
  }

  /** From the ampersand at i to past the body's end, with the semicolon when there is one. */
  function WithSemicolon(page: string, i: nat, bodyEnd: nat, end: nat): (n: nat)
    requires i < bodyEnd <= end <= |page|
    ensures 0 < n && i + n <= end
  {
    bodyEnd - i + if bodyEnd < end && page[bodyEnd] == ';' then 1 else 0
  }

  /** The length of the character reference at i, 0 when there is none. */
  function RefLength(page: string, i: nat, end: nat): (n: nat)
    requires i < end <= |page|
    ensures i + n <= end
  {
    if page[i] != '&' || i + 1 >= end then 0
    else if page[i + 1] == '#' then
      var digits := RunLength(page, i + 2, end, 8, IsDigit);
      if digits > 0 then WithSemicolon(page, i, i + 2 + digits, end)
      else if i + 2 < end && (page[i + 2] == 'x' || page[i + 2] == 'X') then
        var hex := RunLength(page, i + 3, end, 8, IsHexDigit);
        if hex > 0 then WithSemicolon(page, i, i + 3 + hex, end) else 0
      else 0
    else if IsLetter(page[i + 1]) then
      var rest := RunLength(page, i + 2, end, 31, IsAlnum);
      if rest > 0 then WithSemicolon(page, i, i + 2 + rest, end) else 0
    else 0
  }

  /** In an attribute, a named reference with no closing semicolon stays literal. */
  predicate StaysLiteral(ref: string, inAttr: bool, unescape: string -> string) {
    (inAttr && |ref| > 1 && ref[1] != '#' && ref[|ref| - 1] != ';') || unescape(ref) == ref
  }

  /** page[i..end] with its references resolved, read from left to right. */
  function Decoded(page: string, i: nat, end: nat, inAttr: bool, unescape: string -> string): seq<Cell>
    requires i <= end <= |page|
    decreases end - i
  {
    if i == end then []
    else
      var n := RefLength(page, i, end);
      if n == 0 then OwnCells(page, i, i + 1) + Decoded(page, i + 1, end, inAttr, unescape)
      else if StaysLiteral(page[i..i + n], inAttr, unescape)
      then OwnCells(page, i, i + n) + Decoded(page, i + n, end, inAttr, unescape)
      else RefCells(unescape(page[i..i + n]), i, i + n) + Decoded(page, i + n, end, inAttr, unescape)
  }

  // ---- the references there are, and what becomes of them ---------------------------------------

  /** `&#` and one to eight digits. */
  predicate IsDecimalRef(s: string) {
    3 <= |s| <= 10 && s[0] == '&' && s[1] == '#' && forall k | 2 <= k < |s| :: '0' <= s[k] <= '9'
  }

  /** `&#x` and one to eight hexadecimal digits. */
  predicate IsHexRef(s: string) {
    && 4 <= |s| <= 11 && s[0] == '&' && s[1] == '#' && (s[2] == 'x' || s[2] == 'X')
    && forall k | 3 <= k < |s| :: '0' <= s[k] <= '9' || 'a' <= s[k] <= 'f' || 'A' <= s[k] <= 'F'
  }

  /** `&`, a letter and one to thirty-one letters and digits. */
  predicate IsNamedRef(s: string) {
    && 3 <= |s| <= 33 && s[0] == '&' && ('a' <= s[1] <= 'z' || 'A' <= s[1] <= 'Z')
    && forall k | 2 <= k < |s| :: '0' <= s[k] <= '9' || 'a' <= s[k] <= 'z' || 'A' <= s[k] <= 'Z'
  }

  predicate IsOpenRef(s: string) { IsDecimalRef(s) || IsHexRef(s) || IsNamedRef(s) }

  /** A character reference, closed by a semicolon or not. */
  predicate IsReference(s: string) {
    IsOpenRef(s) || (s != "" && s[|s| - 1] == ';' && IsOpenRef(s[..|s| - 1]))
  }

  /** The longest reference in page[i..end] that begins at i ends at k. */
  predicate ReferenceAt(page: string, i: nat, k: nat, end: nat)
    requires i <= k <= end <= |page|
  {
    IsReference(page[i..k]) && forall l | k < l <= end :: !IsReference(page[i..l])
  }

  predicate NoReferenceAt(page: string, i: nat, end: nat)
    requires i <= end <= |page|
  {
    forall l | i <= l <= end :: !IsReference(page[i..l])
  }

  lemma {:induction false} RunIs(page: string, i: nat, end: nat, most: nat, class_: char -> bool)
    requires i <= end <= |page|
    ensures var n := RunLength(page, i, end, most, class_);
      && i + n <= end && (forall k | i <= k < i + n :: class_(page[k]))
      && (n == most || i + n == end || !class_(page[i + n]))
    decreases most
  {
    if most > 0 && i < end && class_(page[i]) { RunIs(page, i + 1, end, most - 1, class_); }
  }

  /** An open reference reaches to b, none reaches further, and b is not inside the semicolon of a shorter one. */
  predicate OpenUpTo(page: string, i: nat, b: nat, end: nat)
    requires i <= b <= end <= |page|
  {
    && IsOpenRef(page[i..b])
    && (forall l | b < l <= end :: !IsOpenRef(page[i..l]))
    && (forall k | i <= k < b :: page[k] != ';')
  }

  lemma DecimalAt(page: string, i: nat, l: nat)
    requires i <= l <= |page|
    ensures IsDecimalRef(page[i..l])
       <==> 3 <= l - i <= 10 && page[i] == '&' && page[i + 1] == '#' && All(page, i + 2, l, IsDigit)
  {
    var s := page[i..l];
    if l - i >= 3 {
      assert All(page, i + 2, l, IsDigit) <==> forall k | 2 <= k < |s| :: IsDigit(s[k]) by { AllSlice(page, i, l, 2, IsDigit); }
    }
  }

  lemma HexAt(page: string, i: nat, l: nat)
    requires i <= l <= |page|
    ensures IsHexRef(page[i..l])
       <==> && 4 <= l - i <= 11 && page[i] == '&' && page[i + 1] == '#' && (page[i + 2] == 'x' || page[i + 2] == 'X')
            && All(page, i + 3, l, IsHexDigit)
  {
    var s := page[i..l];
    if l - i >= 4 {
      assert All(page, i + 3, l, IsHexDigit) <==> forall k | 3 <= k < |s| :: IsHexDigit(s[k]) by { AllSlice(page, i, l, 3, IsHexDigit); }
    }
  }

  lemma NameAt(page: string, i: nat, l: nat)
    requires i <= l <= |page|
    ensures IsNamedRef(page[i..l])
       <==> 3 <= l - i <= 33 && page[i] == '&' && IsLetter(page[i + 1]) && All(page, i + 2, l, IsAlnum)
  {
    var s := page[i..l];
    if l - i >= 3 {
      assert All(page, i + 2, l, IsAlnum) <==> forall k | 2 <= k < |s| :: IsAlnum(s[k]) by { AllSlice(page, i, l, 2, IsAlnum); }
    }
  }

  predicate All(page: string, i: nat, l: nat, class_: char -> bool)
    requires l <= |page|
  {
    forall k | i <= k < l :: class_(page[k])
  }

  lemma AllSlice(page: string, i: nat, l: nat, from: nat, class_: char -> bool)
    requires i + from <= l <= |page|
    ensures All(page, i + from, l, class_) <==> forall k | from <= k < l - i :: class_(page[i..l][k])
  {
    if forall k | from <= k < l - i :: class_(page[i..l][k]) {
      forall k | i + from <= k < l ensures class_(page[k]) { assert class_(page[i..l][k - i]); }
    }
  }

  /** What stands at i, so far as it matters, is one of three kinds. */
  lemma KindAt(page: string, i: nat, l: nat)
    requires i <= l <= |page|
    ensures IsOpenRef(page[i..l]) <==>
              && l - i >= 3 && page[i] == '&'
              && (|| (page[i + 1] == '#' && l - i <= 10 && All(page, i + 2, l, IsDigit))
                  || (page[i + 1] == '#' && 4 <= l - i <= 11 && (page[i + 2] == 'x' || page[i + 2] == 'X') && All(page, i + 3, l, IsHexDigit))
                  || (IsLetter(page[i + 1]) && l - i <= 33 && All(page, i + 2, l, IsAlnum)))
  {
    hide IsDecimalRef, IsHexRef, IsNamedRef, All;
    DecimalAt(page, i, l);
    HexAt(page, i, l);
    NameAt(page, i, l);
  }

  lemma DecimalRuns(page: string, i: nat, end: nat)
    requires i + 1 < end <= |page| && page[i] == '&' && page[i + 1] == '#'
    ensures var n := RunLength(page, i + 2, end, 8, IsDigit);
      if n > 0 then i + 2 + n <= end && OpenUpTo(page, i, i + 2 + n, end)
      else i + 2 == end || !IsDigit(page[i + 2])
  {
    hide IsOpenRef, RunLength;
    RunIs(page, i + 2, end, 8, IsDigit);
    var b := i + 2 + RunLength(page, i + 2, end, 8, IsDigit);
    if b > i + 2 {
      KindAt(page, i, b);
      forall l | b < l <= end ensures !IsOpenRef(page[i..l]) {
        KindAt(page, i, l);
        assert IsDigit(page[i + 2]);
      }
    }
  }

  lemma HexRuns(page: string, i: nat, end: nat)
    requires i + 2 < end <= |page| && page[i] == '&' && page[i + 1] == '#' && (page[i + 2] == 'x' || page[i + 2] == 'X')
    ensures var n := RunLength(page, i + 3, end, 8, IsHexDigit);
      if n > 0 then i + 3 + n <= end && OpenUpTo(page, i, i + 3 + n, end)
      else i + 3 == end || !IsHexDigit(page[i + 3])
  {
    hide IsOpenRef, RunLength;
    RunIs(page, i + 3, end, 8, IsHexDigit);
    var b := i + 3 + RunLength(page, i + 3, end, 8, IsHexDigit);
    if b > i + 3 {
      KindAt(page, i, b);
      forall l | b < l <= end ensures !IsOpenRef(page[i..l]) {
        KindAt(page, i, l);
        assert !IsDigit(page[i + 2]);
      }
    }
  }

  lemma NameRuns(page: string, i: nat, end: nat)
    requires i + 1 < end <= |page| && page[i] == '&' && IsLetter(page[i + 1])
    ensures var n := RunLength(page, i + 2, end, 31, IsAlnum);
      if n > 0 then i + 2 + n <= end && OpenUpTo(page, i, i + 2 + n, end)
      else i + 2 == end || !IsAlnum(page[i + 2])
  {
    hide IsOpenRef, RunLength;
    RunIs(page, i + 2, end, 31, IsAlnum);
    var b := i + 2 + RunLength(page, i + 2, end, 31, IsAlnum);
    if b > i + 2 {
      KindAt(page, i, b);
      forall l | b < l <= end ensures !IsOpenRef(page[i..l]) {
        KindAt(page, i, l);
      }
    }
  }

  /** With its semicolon, the longest open reference is the longest reference. */
  lemma Closes(page: string, i: nat, b: nat, end: nat)
    requires i < b <= end <= |page| && OpenUpTo(page, i, b, end)
    ensures ReferenceAt(page, i, i + WithSemicolon(page, i, b, end), end)
  {
    hide IsOpenRef;
    var k := i + WithSemicolon(page, i, b, end);
    if k > b { assert page[i..k][..|page[i..k]| - 1] == page[i..b]; }
    forall l | k < l <= end ensures !IsReference(page[i..l]) {
      assert page[i..l][..|page[i..l]| - 1] == page[i..l - 1] && page[i..l][l - 1 - i] == page[l - 1];
    }
  }

  /** No open reference, no reference. */
  lemma NoneCloses(page: string, i: nat, end: nat)
    requires i < end <= |page| && forall l | i <= l <= end :: !IsOpenRef(page[i..l])
    ensures NoReferenceAt(page, i, end)
  {
    hide IsOpenRef;
    forall l | i <= l <= end ensures !IsReference(page[i..l]) {
      if l > i { assert page[i..l][..|page[i..l]| - 1] == page[i..l - 1]; }
    }
  }

  /** What is found at a position is the longest reference there; nothing is found exactly when there is none. */
  lemma RefLengthExactly(page: string, i: nat, end: nat)
    requires i < end <= |page|
    ensures var n := RefLength(page, i, end);
      if n == 0 then NoReferenceAt(page, i, end) else i + n <= end && ReferenceAt(page, i, i + n, end)
  {
    hide RunLength, IsOpenRef, OpenUpTo, ReferenceAt, NoReferenceAt, WithSemicolon, All, IsDigit, IsHexDigit, IsAlnum, IsLetter;
    if page[i] == '&' && i + 1 < end {
      if page[i + 1] == '#' {
        DecimalRuns(page, i, end);
        var digits := RunLength(page, i + 2, end, 8, IsDigit);
        if digits > 0 {
          Closes(page, i, i + 2 + digits, end);
        } else if i + 2 < end && (page[i + 2] == 'x' || page[i + 2] == 'X') {
          HexRuns(page, i, end);
          var hex := RunLength(page, i + 3, end, 8, IsHexDigit);
          if hex > 0 { Closes(page, i, i + 3 + hex, end); }
        }
        LetterIs();
      } else if IsLetter(page[i + 1]) {
        NameRuns(page, i, end);
        var rest := RunLength(page, i + 2, end, 31, IsAlnum);
        if rest > 0 { Closes(page, i, i + 2 + rest, end); }
      }
    }
    if RefLength(page, i, end) == 0 {
      forall l | i <= l <= end ensures !IsOpenRef(page[i..l]) {
        KindAt(page, i, l);
        AllBegins(page, i, l, end);
      }
      NoneCloses(page, i, end);
    }
  }

  lemma AllBegins(page: string, i: nat, l: nat, end: nat)
    requires i <= l <= end <= |page|
    ensures i + 2 < l && All(page, i + 2, l, IsDigit) ==> IsDigit(page[i + 2])
    ensures i + 3 < l && All(page, i + 3, l, IsHexDigit) ==> IsHexDigit(page[i + 3])
    ensures i + 2 < l && All(page, i + 2, l, IsAlnum) ==> IsAlnum(page[i + 2])
  {}

  lemma LetterIs()
    ensures !IsLetter('#')
  {}

  /** A byte where no reference begins decodes to itself. */
  lemma DecodedByte(page: string, i: nat, end: nat, inAttr: bool, unescape: string -> string)
    requires i < end <= |page| && NoReferenceAt(page, i, end)
    ensures Decoded(page, i, end, inAttr, unescape)
         == [Cell(page[i], i, i + 1)] + Decoded(page, i + 1, end, inAttr, unescape)
  {
    hide RefLength, NoReferenceAt, ReferenceAt, StaysLiteral;
    RefLengthExactly(page, i, end);
    NotBoth(page, i, end);
    assert OwnCells(page, i, i + 1) == [Cell(page[i], i, i + 1)];
  }

  lemma NotBoth(page: string, i: nat, end: nat)
    requires i <= end <= |page| && NoReferenceAt(page, i, end)
    ensures forall k | i <= k <= end :: !ReferenceAt(page, i, k, end)
  {
    hide IsReference;
  }

  /**
   * A reference decodes to what it stands for, every character tied to the whole of it;
   * only a name with no semicolon inside an attribute, or a reference to nothing known,
   * stays as it is spelled.
   */
  lemma DecodedReference(page: string, i: nat, k: nat, end: nat, inAttr: bool, unescape: string -> string)
    requires i < k <= end <= |page| && ReferenceAt(page, i, k, end)
    ensures var ref := page[i..k];
      Decoded(page, i, end, inAttr, unescape)
      == (if (inAttr && IsNamedRef(ref)) || unescape(ref) == ref then OwnCells(page, i, k) else RefCells(unescape(ref), i, k))
         + Decoded(page, k, end, inAttr, unescape)
  {
    hide *;
    RefLengthExactly(page, i, end);
    var n := RefLength(page, i, end);
    OnlyOne(page, i, k, i + n, end);
    LiteralWhen(page[i..k], inAttr, unescape);
    if StaysLiteral(page[i..k], inAttr, unescape) {
      StepLiteral(page, i, end, inAttr, unescape);
    } else {
      StepReference(page, i, end, inAttr, unescape);
    }
  }

  lemma OnlyOne(page: string, i: nat, k: nat, l: nat, end: nat)
    requires i <= k <= end <= |page| && i <= l <= end && ReferenceAt(page, i, k, end)
    ensures !NoReferenceAt(page, i, end) && (ReferenceAt(page, i, l, end) ==> k == l)
    ensures IsReference(page[i..k])
  {
    hide IsReference;
  }

  lemma LiteralWhen(ref: string, inAttr: bool, unescape: string -> string)
    requires IsReference(ref)
    ensures StaysLiteral(ref, inAttr, unescape) <==> (inAttr && IsNamedRef(ref)) || unescape(ref) == ref
  {
    if ref[|ref| - 1] == ';' && IsOpenRef(ref[..|ref| - 1]) { assert !IsNamedRef(ref); }
  }

  // ---- what a run map promises ----------------------------------------------------------------

  function OriginIn(r: Run, d: nat): (nat, nat)
    requires r.dec <= d < r.dec + r.n
  {
    if r.ident then (r.src + (d - r.dec), r.src + (d - r.dec) + 1) else (r.src, r.end)
  }

  predicate GoodRun(r: Run) { r.n > 0 && r.src < r.end && (r.ident ==> r.n == r.end - r.src) }

  /** Runs tile the text in order, and their sources follow each other in the page. */
  predicate Ordered(runs: seq<Run>) {
    && (forall k | 0 <= k < |runs| :: GoodRun(runs[k]))
    && (forall k, l | 0 <= k < l < |runs| :: runs[k].dec + runs[k].n <= runs[l].dec && runs[k].end <= runs[l].src)
  }

  predicate Contiguous(runs: seq<Run>, length: nat) {
    && (forall k | 0 < k < |runs| :: runs[k].dec == runs[k - 1].dec + runs[k - 1].n)
    && (if runs == [] then length == 0
        else runs[0].dec == 0 && length == runs[|runs| - 1].dec + runs[|runs| - 1].n)
  }

  predicate Traces(r: Run, cells: seq<Cell>) {
    && r.dec + r.n <= |cells|
    && forall d | r.dec <= d < r.dec + r.n :: (cells[d].src, cells[d].end) == OriginIn(r, d)
  }

  predicate Tiled(runs: seq<Run>, cells: seq<Cell>) {
    Ordered(runs) && Contiguous(runs, |cells|) && forall k | 0 <= k < |runs| :: Traces(runs[k], cells)
  }

  function SourceEnd(runs: seq<Run>): nat {
    if runs == [] then 0 else runs[|runs| - 1].end
  }

  lemma TiledSnoc(runs: seq<Run>, cells: seq<Cell>, r: Run, more: seq<Cell>)
    requires Tiled(runs, cells) && GoodRun(r) && SourceEnd(runs) <= r.src
    requires r.dec == |cells| && r.n == |more|
    requires forall d | 0 <= d < |more| :: (more[d].src, more[d].end) == OriginIn(r, r.dec + d)
    ensures Tiled(runs + [r], cells + more)
  {
    hide GoodRun, OriginIn;
    var rs, cs := runs + [r], cells + more;
    assert Ordered(rs) by { OrderedSnoc(runs, r, |cells|); }
    assert Contiguous(rs, |cs|);
    forall k | 0 <= k < |rs| ensures Traces(rs[k], cs) {
      if k < |runs| {
        assert Traces(runs[k], cells);
        forall d | rs[k].dec <= d < rs[k].dec + rs[k].n ensures cs[d] == cells[d] {}
      } else {
        forall d | r.dec <= d < r.dec + r.n ensures cs[d] == more[d - r.dec] {}
      }
    }
  }

  lemma OrderedSnoc(runs: seq<Run>, r: Run, length: nat)
    requires Ordered(runs) && Contiguous(runs, length) && GoodRun(r) && SourceEnd(runs) <= r.src && r.dec == length
    ensures Ordered(runs + [r])
  {
    var rs, n := runs + [r], |runs|;
    forall k, l | 0 <= k < l < |rs| ensures rs[k].dec + rs[k].n <= rs[l].dec && rs[k].end <= rs[l].src {
      if l == n && k < n - 1 { assert runs[k].end <= runs[n - 1].src && GoodRun(runs[n - 1]); }
    }
  }

  predicate Spells(text: string, cells: seq<Cell>) {
    |text| == |cells| && forall d | 0 <= d < |cells| :: cells[d].c == text[d]
  }

  class Mapped {
    var text: string
    var runs: seq<Run>
    ghost var cells: seq<Cell>

    ghost predicate Valid()
      reads this
    {
      Spells(text, cells) && Tiled(runs, cells)
    }

    constructor ()
      ensures Valid() && cells == [] && runs == []
    {
      text, runs, cells := "", [], [];
    }

    method Identity(page: string, start: nat, end: nat)
      requires Valid() && end <= |page| && SourceEnd(runs) <= start
      modifies this
      ensures Valid() && cells == old(cells) + if start < end then OwnCells(page, start, end) else []
      ensures SourceEnd(runs) == if start < end then end else old(SourceEnd(runs))
    {
      hide Tiled, OriginIn;
      if start >= end { return; }
      var r := Run(|text|, end - start, start, end, true);
      OwnOrigins(page, r);
      TiledSnoc(runs, cells, r, OwnCells(page, start, end));
      runs := runs + [r];
      text := text + page[start..end];
      cells := cells + OwnCells(page, start, end);
    }

    method Reference(decoded: string, start: nat, end: nat)
      requires Valid() && start < end && SourceEnd(runs) <= start
      modifies this
      ensures Valid() && cells == old(cells) + RefCells(decoded, start, end)
      ensures SourceEnd(runs) <= end
    {
      hide Tiled, OriginIn;
      if decoded == "" { return; }
      var r := Run(|text|, |decoded|, start, end, false);
      RefOrigins(decoded, r);
      TiledSnoc(runs, cells, r, RefCells(decoded, start, end));
      runs := runs + [r];
      text := text + decoded;
      cells := cells + RefCells(decoded, start, end);
    }

    /** Appends page[start..end] with its character references resolved. */
    method Decode(page: string, start: nat, end: nat, inAttr: bool, unescape: string -> string)
      requires Valid() && start <= end <= |page| && SourceEnd(runs) <= start
      modifies this
      ensures Valid() && cells == old(cells) + Decoded(page, start, end, inAttr, unescape)
      ensures SourceEnd(runs) <= end
    {
      hide *;
      var lit, i := start, start;
      NothingOwn(page, start);
      while i < end
        invariant start <= lit <= i <= end
        invariant Valid() && SourceEnd(runs) <= lit
        invariant old(cells) + Decoded(page, start, end, inAttr, unescape)
                  == cells + OwnCells(page, lit, i) + Decoded(page, i, end, inAttr, unescape)
      {
        ghost var all := old(cells) + Decoded(page, start, end, inAttr, unescape);
        var j := IndexAmpersand(page, i, end);
        SkipPlain(page, i, j, end, inAttr, unescape);
        Advance(all, cells, page, lit, i, j, end, inAttr, unescape);
        i := j;
        if i == end { break; }
        var n := RefLength(page, i, end);
        if n == 0 {
          StepPlain(page, i, end, inAttr, unescape);
          Advance(all, cells, page, lit, i, i + 1, end, inAttr, unescape);
          i := i + 1;
          continue;
        }
        var ref, next := page[i..i + n], i + n;
        if StaysLiteral(ref, inAttr, unescape) {
          StepLiteral(page, i, end, inAttr, unescape);
          Advance(all, cells, page, lit, i, next, end, inAttr, unescape);
          i := next;
          continue;
        }
        StepReference(page, i, end, inAttr, unescape);
        ghost var before := cells;
        Identity(page, lit, i);
        Reference(unescape(ref), i, next);
        AdvanceReference(all, before, cells, page, lit, i, next, end, inAttr, unescape);
        i, lit := next, next;
      }
      Identity(page, lit, end);
      DecodedEnd(page, end, inAttr, unescape);
      if lit == end { NothingOwn(page, end); }
    }

    /**
     * The source of decoded [ds, de): exactly the bytes its characters came from, in
     * order, in spans that neither overlap nor touch; a reference is whole or absent.
     */
    method SourceOf(ds: nat, de: nat) returns (out: seq<Span>)
      requires Valid() && de <= |text|
      ensures forall p :: InSpans(out, p) <==> Behind(cells, ds, de, p)
      ensures SpansApart(out)
    {
      hide *;
      ValidParts();
      TiledOrdered(runs, cells);
      var i := Search(runs, ds);
      out := [];
      ghost var first := i;
      NothingSpanned(runs, ds, de, first);
      while i < |runs| && runs[i].dec < de
        invariant first <= i <= |runs|
        invariant SpansSoFar(out, runs, first, i, ds, de)
      {
        var r := runs[i];
        var lo, hi := if ds > r.dec then ds else r.dec, if de < r.dec + r.n then de else r.dec + r.n;
        PieceIs(r, ds, de);
        NextRun(out, runs, first, i, ds, de);
        if lo < hi {
          var s := if r.ident then Span(r.src + (lo - r.dec), r.src + (hi - r.dec)) else Span(r.src, r.end);
          AddSpanIs(out, s);
          if |out| > 0 && out[|out| - 1].end >= s.start {
            var last := out[|out| - 1];
            out := out[|out| - 1 := Span(last.start, if last.end > s.end then last.end else s.end)];
          } else {
            out := out + [s];
          }
        }
        i := i + 1;
      }
      SpansAreCells(out, runs, cells, first, i, ds, de);
    }

    lemma ValidParts()
      requires Valid()
      ensures Tiled(runs, cells) && |text| == |cells|
    {}
  }

  method IndexAmpersand(page: string, i: nat, end: nat) returns (j: nat)
    requires i <= end <= |page|
    ensures i <= j <= end && (j < end ==> page[j] == '&')
    ensures forall k | i <= k < j :: page[k] != '&'
  {
    j := i;
    while j < end && page[j] != '&'
      invariant i <= j <= end
      invariant forall k | i <= k < j :: page[k] != '&'
    {
      j := j + 1;
    }
  }

  lemma OwnOrigins(page: string, r: Run)
    requires r.ident && GoodRun(r) && r.end <= |page|
    ensures var more := OwnCells(page, r.src, r.end);
      |more| == r.n && forall d | 0 <= d < |more| :: (more[d].src, more[d].end) == OriginIn(r, r.dec + d)
  {}

  lemma RefOrigins(decoded: string, r: Run)
    requires !r.ident && r.n == |decoded|
    ensures var more := RefCells(decoded, r.src, r.end);
      |more| == r.n && forall d | 0 <= d < |more| :: (more[d].src, more[d].end) == OriginIn(r, r.dec + d)
  {}

  // ---- decoding steps ---------------------------------------------------------------------------

  lemma NothingOwn(page: string, i: nat)
    requires i <= |page|
    ensures OwnCells(page, i, i) == []
  {}

  lemma OwnJoin(page: string, a: nat, b: nat, c: nat)
    requires a <= b <= c <= |page|
    ensures OwnCells(page, a, b) + OwnCells(page, b, c) == OwnCells(page, a, c)
  {}

  /** Bytes up to `next` join the literal stretch that starts at lit. */
  lemma Advance(all: seq<Cell>, cells: seq<Cell>, page: string, lit: nat, i: nat, next: nat, end: nat,
                inAttr: bool, unescape: string -> string)
    requires lit <= i <= next <= end <= |page|
    requires all == cells + OwnCells(page, lit, i) + Decoded(page, i, end, inAttr, unescape)
    requires Decoded(page, i, end, inAttr, unescape) == OwnCells(page, i, next) + Decoded(page, next, end, inAttr, unescape)
    ensures all == cells + OwnCells(page, lit, next) + Decoded(page, next, end, inAttr, unescape)
  {
    hide *;
    OwnJoin(page, lit, i, next);
  }

  /** The literal stretch and the reference after it are both appended. */
  lemma AdvanceReference(all: seq<Cell>, before: seq<Cell>, cells: seq<Cell>, page: string, lit: nat, i: nat, next: nat,
                         end: nat, inAttr: bool, unescape: string -> string)
    requires lit <= i < next <= end <= |page|
    requires all == before + OwnCells(page, lit, i) + Decoded(page, i, end, inAttr, unescape)
    requires Decoded(page, i, end, inAttr, unescape)
             == RefCells(unescape(page[i..next]), i, next) + Decoded(page, next, end, inAttr, unescape)
    requires cells == before + (if lit < i then OwnCells(page, lit, i) else []) + RefCells(unescape(page[i..next]), i, next)
    ensures all == cells + OwnCells(page, next, next) + Decoded(page, next, end, inAttr, unescape)
  {
    hide *;
    NothingOwn(page, next);
    if lit == i { NothingOwn(page, i); }
  }

  lemma DecodedEnd(page: string, end: nat, inAttr: bool, unescape: string -> string)
    requires end <= |page|
    ensures Decoded(page, end, end, inAttr, unescape) == []
  {}

  lemma StepPlain(page: string, i: nat, end: nat, inAttr: bool, unescape: string -> string)
    requires i < end <= |page| && RefLength(page, i, end) == 0
    ensures Decoded(page, i, end, inAttr, unescape)
            == OwnCells(page, i, i + 1) + Decoded(page, i + 1, end, inAttr, unescape)
  {
    hide RefLength;
  }

  lemma StepLiteral(page: string, i: nat, end: nat, inAttr: bool, unescape: string -> string)
    requires i < end <= |page| && RefLength(page, i, end) > 0
    requires StaysLiteral(page[i..i + RefLength(page, i, end)], inAttr, unescape)
    ensures var n := RefLength(page, i, end);
      Decoded(page, i, end, inAttr, unescape)
      == OwnCells(page, i, i + n) + Decoded(page, i + n, end, inAttr, unescape)
  {
    hide RefLength, StaysLiteral;
  }

  lemma StepReference(page: string, i: nat, end: nat, inAttr: bool, unescape: string -> string)
    requires i < end <= |page| && RefLength(page, i, end) > 0
    requires !StaysLiteral(page[i..i + RefLength(page, i, end)], inAttr, unescape)
    ensures var n := RefLength(page, i, end);
      Decoded(page, i, end, inAttr, unescape)
      == RefCells(unescape(page[i..i + n]), i, i + n) + Decoded(page, i + n, end, inAttr, unescape)
  {
    hide RefLength, StaysLiteral;
  }

  /** Bytes before the next ampersand decode to themselves. */
  lemma {:induction false} SkipPlain(page: string, i: nat, j: nat, end: nat, inAttr: bool, unescape: string -> string)
    requires i <= j <= end <= |page| && forall k | i <= k < j :: page[k] != '&'
    ensures Decoded(page, i, end, inAttr, unescape)
            == OwnCells(page, i, j) + Decoded(page, j, end, inAttr, unescape)
    decreases j - i
  {
    hide Decoded;
    if i < j {
      assert RefLength(page, i, end) == 0;
      StepPlain(page, i, end, inAttr, unescape);
      SkipPlain(page, i + 1, j, end, inAttr, unescape);
      OwnJoin(page, i, i + 1, j);
    }
  }

  // ---- from decoded back to source -------------------------------------------------------------------

  predicate InSpans(out: seq<Span>, p: int) { exists k :: 0 <= k < |out| && out[k].start <= p < out[k].end }

  /** Some character of decoded [ds, de) came from source byte p. */
  predicate Behind(cells: seq<Cell>, ds: nat, de: nat, p: int)
    requires de <= |cells|
  {
    exists d :: ds <= d < de && cells[d].src <= p < cells[d].end
  }

  /** In order, none empty, and a byte at least between one span and the next. */
  predicate SpansApart(out: seq<Span>) {
    && (forall k | 0 <= k < |out| :: out[k].start < out[k].end)
    && (forall k, l | 0 <= k < l < |out| :: out[k].end < out[l].start)
  }

  predicate EndsBy(out: seq<Span>, x: int) { forall k | 0 <= k < |out| :: out[k].end <= x }

  /** What of decoded [ds, de) falls in the run, as a span of its source. */
  function PieceOf(r: Run, ds: nat, de: nat): Span {
    var lo, hi := if ds > r.dec then ds else r.dec, if de < r.dec + r.n then de else r.dec + r.n;
    if lo >= hi then Span(r.src, r.src)
    else if r.ident then Span(r.src + (lo - r.dec), r.src + (hi - r.dec)) else Span(r.src, r.end)
  }

  predicate InRuns(runs: seq<Run>, from: nat, to: nat, ds: nat, de: nat, p: int)
    requires to <= |runs|
  {
    exists k :: from <= k < to && PieceOf(runs[k], ds, de).start <= p < PieceOf(runs[k], ds, de).end
  }

  lemma PieceIs(r: Run, ds: nat, de: nat)
    ensures var lo, hi := if ds > r.dec then ds else r.dec, if de < r.dec + r.n then de else r.dec + r.n;
      PieceOf(r, ds, de)
      == if lo >= hi then Span(r.src, r.src)
         else if r.ident then Span(r.src + (lo - r.dec), r.src + (hi - r.dec)) else Span(r.src, r.end)
  {}

  lemma PieceInRun(r: Run, ds: nat, de: nat)
    requires GoodRun(r)
    ensures var s := PieceOf(r, ds, de);
      && r.src <= s.start <= s.end <= r.end
      && ((if ds > r.dec then ds else r.dec) < (if de < r.dec + r.n then de else r.dec + r.n) ==> s.start < s.end)
  {}

  /** The source bytes of a run's piece are those behind its characters in range. */
  lemma PieceIsCells(r: Run, cells: seq<Cell>, ds: nat, de: nat, p: int)
    requires GoodRun(r) && Traces(r, cells) && de <= |cells|
    ensures PieceOf(r, ds, de).start <= p < PieceOf(r, ds, de).end
            <==> exists d :: ds <= d < de && r.dec <= d < r.dec + r.n && cells[d].src <= p < cells[d].end
  {
    var s := PieceOf(r, ds, de);
    var lo, hi := if ds > r.dec then ds else r.dec, if de < r.dec + r.n then de else r.dec + r.n;
    if s.start <= p < s.end {
      var d := if r.ident then r.dec + (p - r.src) else lo;
      assert lo <= d < hi && (cells[d].src, cells[d].end) == OriginIn(r, d);
    }
    forall d | ds <= d < de && r.dec <= d < r.dec + r.n && cells[d].src <= p < cells[d].end
      ensures s.start <= p < s.end
    {
      assert (cells[d].src, cells[d].end) == OriginIn(r, d);
    }
  }

  /** sort.Search: the first run that ends after ds. */
  method Search(runs: seq<Run>, ds: nat) returns (i: nat)
    requires Ordered(runs)
    ensures i <= |runs|
    ensures forall k | 0 <= k < i :: runs[k].dec + runs[k].n <= ds
    ensures forall k | i <= k < |runs| :: runs[k].dec + runs[k].n > ds
  {
    i := 0;
    var j := |runs|;
    while i < j
      invariant i <= j <= |runs|
      invariant forall k | 0 <= k < i :: runs[k].dec + runs[k].n <= ds
      invariant forall k | j <= k < |runs| :: runs[k].dec + runs[k].n > ds
    {
      var h := (i + j) / 2;
      RunsAscend(runs, h);
      if runs[h].dec + runs[h].n > ds {
        j := h;
      } else {
        i := h + 1;
      }
    }
  }

  lemma RunsAscend(runs: seq<Run>, h: nat)
    requires Ordered(runs) && h < |runs|
    ensures forall k | 0 <= k < h :: runs[k].dec + runs[k].n <= runs[h].dec + runs[h].n
    ensures forall k | h <= k < |runs| :: runs[k].dec + runs[k].n >= runs[h].dec + runs[h].n
  {
    forall k | h < k < |runs| ensures runs[k].dec + runs[k].n >= runs[h].dec + runs[h].n {
      assert runs[h].dec + runs[h].n <= runs[k].dec;
    }
  }

  lemma TiledOrdered(runs: seq<Run>, cells: seq<Cell>)
    requires Tiled(runs, cells)
    ensures Ordered(runs) && Contiguous(runs, |cells|)
    ensures forall k | 0 <= k < |runs| :: Traces(runs[k], cells) && GoodRun(runs[k])
  {}

  /** The spans collected from runs first up to i. */
  ghost predicate SpansSoFar(out: seq<Span>, runs: seq<Run>, first: nat, i: nat, ds: nat, de: nat) {
    && first <= i <= |runs| && SpansApart(out) && EndsBy(out, SourceEnd(runs[..i]))
    && forall p :: InSpans(out, p) <==> InRuns(runs, first, i, ds, de, p)
  }

  /** One more span: joined to the last when it touches it, appended otherwise. */
  function AddSpan(out: seq<Span>, s: Span): seq<Span> {
    var n := |out| - 1;
    if |out| > 0 && out[n].end >= s.start
    then out[n := Span(out[n].start, if out[n].end > s.end then out[n].end else s.end)] else out + [s]
  }

  lemma AddSpanIs(out: seq<Span>, s: Span)
    ensures |out| > 0 && out[|out| - 1].end >= s.start ==>
              AddSpan(out, s) == out[|out| - 1 := Span(out[|out| - 1].start,
                                                       if out[|out| - 1].end > s.end then out[|out| - 1].end else s.end)]
    ensures !(|out| > 0 && out[|out| - 1].end >= s.start) ==> AddSpan(out, s) == out + [s]
  {}

  lemma NextRun(out: seq<Span>, runs: seq<Run>, first: nat, i: nat, ds: nat, de: nat)
    requires Ordered(runs) && i < |runs| && SpansSoFar(out, runs, first, i, ds, de)
    ensures var r, s := runs[i], PieceOf(runs[i], ds, de);
      var lo, hi := if ds > r.dec then ds else r.dec, if de < r.dec + r.n then de else r.dec + r.n;
      SpansSoFar(if lo < hi then AddSpan(out, s) else out, runs, first, i + 1, ds, de)
  {
    hide InSpans, InRuns, SpansApart, EndsBy, Ordered, SourceEnd, GoodRun, PieceOf, AddSpan;
    var r, s := runs[i], PieceOf(runs[i], ds, de);
    OrderedNext(runs, i);
    NextSourceEnd(runs, i);
    PieceInRun(r, ds, de);
    PieceIs(r, ds, de);
    RunsGrow(runs, first, i, ds, de);
    var lo, hi := if ds > r.dec then ds else r.dec, if de < r.dec + r.n then de else r.dec + r.n;
    if lo < hi {
      SpansGrow(out, s, SourceEnd(runs[..i]));
      EndsLater(AddSpan(out, s), s.end, r.end);
      forall p ensures InSpans(AddSpan(out, s), p) <==> InRuns(runs, first, i + 1, ds, de, p) {
        assert InSpans(out, p) <==> InRuns(runs, first, i, ds, de, p);
      }
    } else {
      EndsLater(out, SourceEnd(runs[..i]), r.end);
      forall p ensures InSpans(out, p) <==> InRuns(runs, first, i + 1, ds, de, p) {
        assert InSpans(out, p) <==> InRuns(runs, first, i, ds, de, p);
      }
    }
  }

  lemma SpansAreCells(out: seq<Span>, runs: seq<Run>, cells: seq<Cell>, first: nat, i: nat, ds: nat, de: nat)
    requires SpansSoFar(out, runs, first, i, ds, de)
    requires Ordered(runs) && Contiguous(runs, |cells|) && de <= |cells|
    requires forall k | 0 <= k < |runs| :: Traces(runs[k], cells) && GoodRun(runs[k])
    requires forall k | 0 <= k < first :: runs[k].dec + runs[k].n <= ds
    requires i < |runs| ==> runs[i].dec >= de
    ensures SpansApart(out)
    ensures forall p :: InSpans(out, p) <==> Behind(cells, ds, de, p)
  {
    hide InSpans, InRuns, Behind, SpansApart, EndsBy, Ordered, Contiguous, Traces, GoodRun;
    forall p ensures InSpans(out, p) <==> Behind(cells, ds, de, p) {
      RunsAreCells(runs, cells, first, i, ds, de, p);
    }
  }

  lemma NothingSpanned(runs: seq<Run>, ds: nat, de: nat, first: nat)
    requires first <= |runs|
    ensures SpansSoFar([], runs, first, first, ds, de)
  {}

  lemma OrderedNext(runs: seq<Run>, i: nat)
    requires Ordered(runs) && i < |runs|
    ensures GoodRun(runs[i]) && SourceEnd(runs[..i]) <= runs[i].src && runs[i].src < runs[i].end && runs[i].n > 0
  {}

  lemma NextSourceEnd(runs: seq<Run>, i: nat)
    requires i < |runs|
    ensures SourceEnd(runs[..i + 1]) == runs[i].end
  {}

  lemma EndsLater(out: seq<Span>, x: int, y: int)
    requires EndsBy(out, x) && x <= y
    ensures EndsBy(out, y)
  {}

  /** Appending or joining one more span after the others. */
  lemma SpansGrow(out: seq<Span>, s: Span, x: int)
    requires SpansApart(out) && EndsBy(out, x) && x <= s.start < s.end
    ensures var grown := AddSpan(out, s);
      && SpansApart(grown) && EndsBy(grown, s.end)
      && forall p :: InSpans(grown, p) <==> InSpans(out, p) || s.start <= p < s.end
  {
    hide SpansApart, EndsBy, InSpans;
    var n := |out| - 1;
    if |out| > 0 && out[n].end >= s.start {
      JoinLast(out, s, x);
      assert AddSpan(out, s) == out[n := Span(out[n].start, s.end)];
    } else {
      AppendLast(out, s, x);
      assert AddSpan(out, s) == out + [s];
    }
  }

  lemma JoinLast(out: seq<Span>, s: Span, x: int)
    requires SpansApart(out) && EndsBy(out, x) && x <= s.start < s.end && |out| > 0 && out[|out| - 1].end >= s.start
    ensures var n := |out| - 1;
      var grown := out[n := Span(out[n].start, s.end)];
      && out[n].end <= s.end && SpansApart(grown) && EndsBy(grown, s.end)
      && forall p :: InSpans(grown, p) <==> InSpans(out, p) || s.start <= p < s.end
  {
    var n := |out| - 1;
    var last := Span(out[n].start, s.end);
    var grown := out[n := last];
    assert out == out[..n] + [out[n]];
    assert grown == out[..n] + [last];
    forall p ensures InSpans(grown, p) <==> InSpans(out, p) || s.start <= p < s.end {
      InSnoc(out[..n], out[n], p);
      InSnoc(out[..n], last, p);
    }
  }

  lemma InSnoc(out: seq<Span>, s: Span, p: int)
    ensures InSpans(out + [s], p) <==> InSpans(out, p) || s.start <= p < s.end
  {
    var grown := out + [s];
    assert grown[|out|] == s;
    if InSpans(out, p) {
      var k :| 0 <= k < |out| && out[k].start <= p < out[k].end;
      assert grown[k] == out[k];
    }
  }

  lemma AppendLast(out: seq<Span>, s: Span, x: int)
    requires SpansApart(out) && EndsBy(out, x) && x <= s.start < s.end
    requires |out| > 0 ==> out[|out| - 1].end < s.start
    ensures SpansApart(out + [s]) && EndsBy(out + [s], s.end)
    ensures forall p :: InSpans(out + [s], p) <==> InSpans(out, p) || s.start <= p < s.end
  {
    var grown, n := out + [s], |out|;
    forall k, l | 0 <= k < l < |grown| ensures grown[k].end < grown[l].start {
      if k < n - 1 { LastSpan(out, k); }
    }
    forall p ensures InSpans(grown, p) <==> InSpans(out, p) || s.start <= p < s.end { InSnoc(out, s, p); }
  }

  lemma LastSpan(out: seq<Span>, k: nat)
    requires SpansApart(out) && k < |out| - 1
    ensures out[k].end < out[|out| - 1].start < out[|out| - 1].end
  {}

  lemma RunsGrow(runs: seq<Run>, first: nat, i: nat, ds: nat, de: nat)
    requires first <= i < |runs|
    ensures forall p :: InRuns(runs, first, i + 1, ds, de, p)
              <==> InRuns(runs, first, i, ds, de, p) || PieceOf(runs[i], ds, de).start <= p < PieceOf(runs[i], ds, de).end
  {
    hide PieceOf;
  }

  /** Runs before `first` end by ds and runs from `to` on start at de or later, so only those between matter. */
  lemma RunsAreCells(runs: seq<Run>, cells: seq<Cell>, first: nat, to: nat, ds: nat, de: nat, p: int)
    requires Ordered(runs) && Contiguous(runs, |cells|) && de <= |cells|
    requires forall k | 0 <= k < |runs| :: Traces(runs[k], cells) && GoodRun(runs[k])
    requires first <= to <= |runs|
    requires forall k | 0 <= k < first :: runs[k].dec + runs[k].n <= ds
    requires to < |runs| ==> runs[to].dec >= de
    ensures InRuns(runs, first, to, ds, de, p) <==> Behind(cells, ds, de, p)
  {
    hide Traces, GoodRun, PieceOf;
    if InRuns(runs, first, to, ds, de, p) {
      var k :| first <= k < to && PieceOf(runs[k], ds, de).start <= p < PieceOf(runs[k], ds, de).end;
      PieceIsCells(runs[k], cells, ds, de, p);
    }
    if Behind(cells, ds, de, p) {
      var d :| ds <= d < de && cells[d].src <= p < cells[d].end;
      var k := RunOf(runs, |cells|, d);
      PieceIsCells(runs[k], cells, ds, de, p);
      if to < k { LaterRuns(runs, to, k); }
    }
  }

  lemma LaterRuns(runs: seq<Run>, k: nat, l: nat)
    requires Ordered(runs) && k < l < |runs|
    ensures runs[k].dec <= runs[l].dec
  {}

  /** Every decoded byte lies in a run. */
  lemma RunOf(runs: seq<Run>, length: nat, d: nat) returns (k: nat)
    requires Contiguous(runs, length) && d < length
    ensures k < |runs| && runs[k].dec <= d < runs[k].dec + runs[k].n
    decreases |runs|
  {
    k := |runs| - 1;
    while runs[k].dec > d
      invariant k < |runs| && d < runs[k].dec + runs[k].n
      decreases k
    {
      assert k > 0;
      k := k - 1;
    }
  }

  // ---- conservation -------------------------------------------------------------------------------------

  /** Source byte p is inside a reference that decodes to nothing. */
  predicate Vanishes(page: string, i: nat, end: nat, inAttr: bool, unescape: string -> string, p: int)
    requires i <= end <= |page|
    decreases end - i
  {
    i < end &&
    var n := RefLength(page, i, end);
    if n == 0 then Vanishes(page, i + 1, end, inAttr, unescape, p)
    else
      || (!StaysLiteral(page[i..i + n], inAttr, unescape) && unescape(page[i..i + n]) == "" && i <= p < i + n)
      || Vanishes(page, i + n, end, inAttr, unescape, p)
  }

  /**
   * Decoding loses no byte and invents none: each byte of page[start..end] is behind
   * some decoded character, or inside a reference that decodes to nothing.
   */
  lemma {:induction false} DecodedCoversSource(page: string, i: nat, end: nat, inAttr: bool, unescape: string -> string, p: int)
    requires i <= end <= |page|
    ensures var cells := Decoded(page, i, end, inAttr, unescape);
      i <= p < end <==> Behind(cells, 0, |cells|, p) || Vanishes(page, i, end, inAttr, unescape, p)
    decreases end - i
  {
    hide RefLength, StaysLiteral, Behind;
    if i == end {
      NothingBehind(p);
    } else {
      var n := RefLength(page, i, end);
      var step := if n == 0 then 1 else n;
      DecodedCoversSource(page, i + step, end, inAttr, unescape, p);
      var rest := Decoded(page, i + step, end, inAttr, unescape);
      if n == 0 || StaysLiteral(page[i..i + n], inAttr, unescape) {
        BehindJoin(OwnCells(page, i, i + step), rest, p);
        BehindOwn(page, i, i + step, p);
      } else {
        var dec := unescape(page[i..i + n]);
        BehindJoin(RefCells(dec, i, i + n), rest, p);
        BehindRef(dec, i, i + n, p);
      }
    }
  }

  lemma NothingBehind(p: int)
    ensures !Behind([], 0, 0, p)
  {}

  lemma BehindJoin(a: seq<Cell>, b: seq<Cell>, p: int)
    ensures Behind(a + b, 0, |a + b|, p) <==> Behind(a, 0, |a|, p) || Behind(b, 0, |b|, p)
  {
    var c := a + b;
    if Behind(a, 0, |a|, p) {
      var d :| 0 <= d < |a| && a[d].src <= p < a[d].end;
      assert c[d] == a[d];
    }
    if Behind(b, 0, |b|, p) {
      var d :| 0 <= d < |b| && b[d].src <= p < b[d].end;
      assert c[|a| + d] == b[d];
    }
    if Behind(c, 0, |c|, p) {
      var d :| 0 <= d < |c| && c[d].src <= p < c[d].end;
      if d < |a| { assert c[d] == a[d]; } else { assert c[d] == b[d - |a|]; }
    }
  }

  lemma BehindOwn(page: string, start: nat, end: nat, p: int)
    requires start <= end <= |page|
    ensures Behind(OwnCells(page, start, end), 0, end - start, p) <==> start <= p < end
  {
    var cells := OwnCells(page, start, end);
    if start <= p < end { assert cells[p - start].src <= p < cells[p - start].end; }
  }

  lemma BehindRef(decoded: string, start: nat, end: nat, p: int)
    ensures Behind(RefCells(decoded, start, end), 0, |decoded|, p) <==> decoded != "" && start <= p < end
  {
    var cells := RefCells(decoded, start, end);
    if decoded != "" && start <= p < end { assert cells[0].src <= p < cells[0].end; }
  }
}
