/**
 * Reading inside one start tag: where its attributes and their values are, and the
 * tags a malformed one may have swallowed.
 */
module TagLexer {
  import opened Common

  /** Positions in the page; the value's are those of its content, inside its quotes. Reading goes on at next. */
  datatype Attr = Attr(nameStart: nat, nameEnd: nat, hasValue: bool, valStart: nat, valEnd: nat, next: nat)

  datatype Tag = Tag(nameStart: nat, nameEnd: nat, attrs: seq<Attr>, dupe: bool, odd: bool, unclosed: bool)

  predicate IsSpace(c: char) { c == ' ' || c == '\t' || c == '\n' || c == '\U{000c}' || c == '\r' }

  predicate IsQuote(c: char) { c == '"' || c == '\'' }

  predicate EndsName(c: char) { IsSpace(c) || c == '/' || c == '>' || c == '=' }

  predicate EndsTagName(c: char) { IsSpace(c) || c == '/' || c == '>' }

  predicate EndsBare(c: char) { IsSpace(c) || c == '>' }

  /** No byte of page[i..j] is of the class. */
  predicate Without(page: string, i: nat, j: nat, class_: char -> bool)
    requires j <= |page|
  {
    forall k | i <= k < j :: !class_(page[k])
  }

  /** Every byte of page[i..j] is of the class. */
  predicate All(page: string, i: nat, j: nat, class_: char -> bool)
    requires j <= |page|
  {
    forall k | i <= k < j :: class_(page[k])
  }

  // ---- how often a byte of the page is looked at ------------------------------------------------
  //
  // `looks` holds a position once for each time. Copying a name counts; what is then done with
  // the copy (folding its case, searching it for quotes, looking it up among the names seen)
  // reads the copy and does not.

  /** Every position from i to j was looked at once, and no position from limit on. */
  ghost predicate OnceEach(looks: multiset<nat>, i: nat, j: nat, limit: nat) {
    forall p: nat :: looks[p] == if i <= p <= j && p < limit then 1 else 0
  }

  /** A run of bytes outside the class: as long as it can be. */
  method RunUntil(page: string, i: nat, limit: nat, stop: char -> bool) returns (j: nat, ghost looks: multiset<nat>)
    requires i <= limit <= |page|
    ensures i <= j <= limit && Without(page, i, j, stop) && (j < limit ==> stop(page[j]))
    ensures OnceEach(looks, i, j, limit)
  {
    j, looks := i, multiset{};
    while j < limit
      invariant i <= j <= limit && Without(page, i, j, stop)
      invariant forall p: nat :: looks[p] == if i <= p < j then 1 else 0
    {
      looks := looks + multiset{j};
      if stop(page[j]) { return; }
      j := j + 1;
    }
  }

  method SkipRun(page: string, i: nat, limit: nat, class_: char -> bool) returns (j: nat, ghost looks: multiset<nat>)
    requires i <= limit <= |page|
    ensures i <= j <= limit && All(page, i, j, class_) && (j < limit ==> !class_(page[j]))
    ensures OnceEach(looks, i, j, limit)
  {
    j, looks := i, multiset{};
    while j < limit
      invariant i <= j <= limit && All(page, i, j, class_)
      invariant forall p: nat :: looks[p] == if i <= p < j then 1 else 0
    {
      looks := looks + multiset{j};
      if !class_(page[j]) { return; }
      j := j + 1;
    }
  }

  /** The positions of page[i..j], which is copied. */
  ghost function Copied(i: nat, j: nat): (r: multiset<nat>)
    requires i <= j
    ensures forall p: nat :: r[p] == if i <= p < j then 1 else 0
  {
    if i == j then multiset{} else Copied(i, j - 1) + multiset{j - 1}
  }

  /** One look at page[j], unless it is past the end. */
  ghost function Looked(j: nat, limit: nat): multiset<nat> {
    if j < limit then multiset{j} else multiset{}
  }

  const ATTR_LOOKS: nat := 3
  const TAG_LOOKS: nat := 2 * ATTR_LOOKS + 2

  /** Nothing outside page[i..limit] was looked at, nothing past `ahead`, and no byte too often. */
  ghost predicate AttrLooks(looks: multiset<nat>, i: nat, ahead: nat, limit: nat) {
    forall p: nat :: looks[p] <= if i <= p <= ahead && p < limit then ATTR_LOOKS else 0
  }

  /** The value's content ends at its closing quote, or at limit when it never closes. */
  predicate QuotedValue(page: string, a: Attr, limit: nat)
    requires a.next <= limit <= |page|
  {
    && 0 < a.valStart <= a.valEnd <= a.next && IsQuote(page[a.valStart - 1])
    && Without(page, a.valStart, a.valEnd, c => c == page[a.valStart - 1])
    && ((a.valEnd == a.next == limit) || (a.valEnd + 1 == a.next && page[a.valEnd] == page[a.valStart - 1]))
  }

  /** A value without quotes runs to white space or the end of the tag, and may be empty. */
  predicate BareValue(page: string, a: Attr, limit: nat)
    requires a.next <= limit <= |page|
  {
    && a.valStart <= a.valEnd == a.next && Without(page, a.valStart, a.valEnd, EndsBare)
    && (a.next < limit ==> EndsBare(page[a.next]))
    && (a.valStart < a.valEnd ==> !IsQuote(page[a.valStart]))
  }

  /** What the attribute grammar makes of page[i..limit] from an attribute's first byte on. */
  ghost predicate IsAttr(page: string, i: nat, limit: nat, a: Attr)
    requires limit <= |page|
  {
    && i == a.nameStart < a.nameEnd <= a.next <= limit
    && Without(page, a.nameStart + 1, a.nameEnd, EndsName) && (a.nameEnd < limit ==> EndsName(page[a.nameEnd]))
    && (!a.hasValue ==> a.next == a.nameEnd && exists j :: NoEquals(page, a.nameEnd, j, limit))
    && (a.hasValue ==>
          && (QuotedValue(page, a, limit) || BareValue(page, a, limit))
          && exists eq :: EqualsAt(page, a.nameEnd, eq, a.valStart))
  }

  /** After white space comes something other than `=`, or nothing. */
  predicate NoEquals(page: string, from: nat, j: int, limit: nat)
    requires limit <= |page|
  {
    from <= j <= limit && All(page, from, j, IsSpace) && (j < limit ==> !IsSpace(page[j]) && page[j] != '=')
  }

  /** White space, `=`, white space and at most the opening quote stand before the value. */
  predicate EqualsAt(page: string, from: nat, eq: int, valStart: nat)
    requires valStart <= |page|
  {
    && from <= eq < valStart && page[eq] == '=' && All(page, from, eq, IsSpace)
    && (All(page, eq + 1, valStart, IsSpace) || (eq + 1 < valStart && All(page, eq + 1, valStart - 1, IsSpace)))
  }

  /** The name, and the white space and the byte behind it. */
  lemma NameLooks(name: multiset<nat>, spaces: multiset<nat>, i: nat, nameEnd: nat, j: nat, limit: nat)
    requires i < nameEnd <= j <= limit && OnceEach(name, i + 1, nameEnd, limit) && OnceEach(spaces, nameEnd, j, limit)
    ensures AttrLooks(name + Copied(i, nameEnd) + spaces + Looked(j, limit), i, j, limit)
  {}

  /** Behind the `=` at j, the white space up to k and the byte there. */
  lemma EqualsLooks(looks: multiset<nat>, spaces: multiset<nat>, i: nat, j: nat, k: nat, limit: nat)
    requires i <= j < k <= limit && AttrLooks(looks, i, j, limit) && OnceEach(spaces, j + 1, k, limit)
    ensures AttrLooks(looks + spaces + Looked(k, limit), i, k, limit)
  {}

  /** And the value, which begins at k or behind the quote there. */
  lemma ValueLooks(looks: multiset<nat>, spaces: multiset<nat>, value: multiset<nat>, i: nat, j: nat, k: nat, from: nat, end: nat, ahead: nat, limit: nat)
    requires i <= j < k < limit && k <= from <= end <= limit && AttrLooks(looks, i, j, limit) && OnceEach(spaces, j + 1, k, limit)
    requires OnceEach(value, from, end, limit) && (end == ahead || (ahead == end + 1 && end < limit))
    ensures AttrLooks(looks + spaces + Looked(k, limit) + value, i, ahead, limit)
  {}

  /** The attribute at i; only white space is looked at beyond it, up to `ahead`. */
  method LexAttr(page: string, i: nat, limit: nat) returns (a: Attr, ghost looks: multiset<nat>, ghost ahead: nat)
    requires i < limit <= |page|
    ensures IsAttr(page, i, limit, a)
    ensures a.next <= ahead <= limit && All(page, a.next, ahead, IsSpace) && AttrLooks(looks, i, ahead, limit)
  {
    hide Copied, Looked, OnceEach, AttrLooks;
    var nameEnd, run := RunUntil(page, i + 1, limit, EndsName);
    var j, spaces := SkipRun(page, nameEnd, limit, IsSpace);
    NameLooks(run, spaces, i, nameEnd, j, limit);
    looks, ahead := run + Copied(i, nameEnd) + spaces + Looked(j, limit), j;
    if j >= limit || page[j] != '=' {
      assert NoEquals(page, nameEnd, j, limit);
      return Attr(i, nameEnd, false, 0, 0, nameEnd), looks, ahead;
    }
    var eq := j;
    j, spaces := SkipRun(page, j + 1, limit, IsSpace);
    if j >= limit || page[j] == '>' {
      assert EqualsAt(page, nameEnd, eq, j);
      EqualsLooks(looks, spaces, i, eq, j, limit);
      return Attr(i, nameEnd, true, j, j, j), looks + spaces + Looked(j, limit), j;
    }
    if IsQuote(page[j]) {
      var q := page[j];
      var k, value := RunUntil(page, j + 1, limit, c => c == q);
      assert EqualsAt(page, nameEnd, eq, j + 1);
      a := Attr(i, nameEnd, true, j + 1, k, if k < limit then k + 1 else limit);
      assert QuotedValue(page, a, limit);
      ValueLooks(looks, spaces, value, i, eq, j, j + 1, k, a.next, limit);
      return a, looks + spaces + Looked(j, limit) + value, a.next;
    } else {
      var k, value := RunUntil(page, j, limit, EndsBare);
      assert EqualsAt(page, nameEnd, eq, j);
      a := Attr(i, nameEnd, true, j, k, k);
      assert BareValue(page, a, limit);
      ValueLooks(looks, spaces, value, i, eq, j, j, k, k, limit);
      return a, looks + spaces + Looked(j, limit) + value, k;
    }
  }

  predicate IsGap(c: char) { IsSpace(c) || c == '/' }

  /** Where reading stands after the tag's name and the first k attributes. */
  function ReadUpTo(t: Tag, k: nat): nat
    requires k <= |t.attrs|
  {
    if k == 0 then t.nameEnd else t.attrs[k - 1].next
  }

  /** Attribute k is what the grammar makes of the page right after the gap behind the one before. */
  ghost predicate FollowsGap(page: string, t: Tag, k: nat, limit: nat)
    requires k < |t.attrs| && limit <= |page|
  {
    && ReadUpTo(t, k) <= t.attrs[k].nameStart
    && IsAttr(page, t.attrs[k].nameStart, limit, t.attrs[k])
    && All(page, ReadUpTo(t, k), t.attrs[k].nameStart, IsGap)
    && !IsGap(page[t.attrs[k].nameStart]) && page[t.attrs[k].nameStart] != '>'
  }

  /** The tag's name and attributes are all there is in the page up to i. */
  ghost predicate Chained(page: string, t: Tag, i: nat, limit: nat) {
    && t.nameStart <= t.nameEnd <= i <= limit <= |page| && i == ReadUpTo(t, |t.attrs|)
    && Without(page, t.nameStart, t.nameEnd, EndsTagName)
    && forall k: nat | k < |t.attrs| :: FollowsGap(page, t, k, limit)
  }

  /** And after them comes the closing `>`, or nothing before limit. */
  ghost predicate Closed(page: string, t: Tag, i: nat, limit: nat)
    requires limit <= |page|
  {
    exists stop :: i <= stop <= limit && All(page, i, stop, IsGap)
      && (if t.unclosed then stop == limit else stop < limit && page[stop] == '>')
  }

  lemma ChainOne(page: string, t: Tag, from: nat, i: nat, limit: nat, a: Attr, u: Tag)
    requires Chained(page, t, from, limit) && from <= i < limit && All(page, from, i, IsGap)
    requires !IsGap(page[i]) && page[i] != '>' && IsAttr(page, i, limit, a)
    requires u.attrs == t.attrs + [a] && u.nameStart == t.nameStart && u.nameEnd == t.nameEnd
    ensures Chained(page, u, a.next, limit)
  {
    hide All, Without, QuotedValue, BareValue;
    var n := |t.attrs|;
    forall k: nat | k < |u.attrs| ensures FollowsGap(page, u, k, limit) {
      if k < n {
        assert FollowsGap(page, t, k, limit);
        assert u.attrs[k] == t.attrs[k] && ReadUpTo(u, k) == ReadUpTo(t, k);
      } else {
        assert ReadUpTo(u, n) == from && u.attrs[n] == a;
      }
    }
  }

  /** So the value contents of one tag are in order, apart and inside the tag. */
  lemma {:induction false} ValuesInOrder(page: string, t: Tag, i: nat, limit: nat, k: nat, l: nat)
    requires Chained(page, t, i, limit) && k < l < |t.attrs|
    ensures t.attrs[k].nameStart < t.attrs[k].nameEnd <= t.attrs[k].next <= t.attrs[l].nameStart < limit
    ensures t.attrs[k].hasValue ==> t.attrs[k].nameEnd < t.attrs[k].valStart <= t.attrs[k].valEnd <= t.attrs[l].nameStart
    decreases l
  {
    hide All, Without;
    assert FollowsGap(page, t, k, limit) && FollowsGap(page, t, l, limit);
    AttrEnds(page, limit, t.attrs[k]);
    if k < l - 1 {
      ValuesInOrder(page, t, i, limit, k, l - 1);
      assert FollowsGap(page, t, l - 1, limit);
    }
  }

  lemma AttrEnds(page: string, limit: nat, a: Attr)
    requires limit <= |page| && IsAttr(page, a.nameStart, limit, a)
    ensures a.nameStart < a.nameEnd <= a.next <= limit
    ensures a.hasValue ==> a.nameEnd < a.valStart <= a.valEnd <= a.next
  {
    hide Without, All;
    if a.hasValue {
      var eq :| EqualsAt(page, a.nameEnd, eq, a.valStart);
    }
  }

  function NameOf(page: string, a: Attr): string {
    if a.nameStart <= a.nameEnd <= |page| then page[a.nameStart..a.nameEnd] else ""
  }

  /** A quote or `<` in a name, which only happens after a quote before it went wrong. */
  predicate OddName(name: string) { exists k :: 0 <= k < |name| && (IsQuote(name[k]) || name[k] == '<') }

  predicate AnyOdd(names: seq<string>) { exists k :: 0 <= k < |names| && OddName(names[k]) }

  predicate Repeats(names: seq<string>) { exists k, l :: 0 <= k < l < |names| && names[k] == names[l] }

  /** The attributes' names, folded by `lower`. */
  function Names(page: string, attrs: seq<Attr>, lower: string -> string): (r: seq<string>)
    ensures |r| == |attrs| && forall k | 0 <= k < |r| :: r[k] == lower(NameOf(page, attrs[k]))
  {
    seq(|attrs|, k requires 0 <= k < |attrs| => lower(NameOf(page, attrs[k])))
  }

  function Plain(name: string): string { name }

  lemma RepeatsSnoc(names: seq<string>, name: string)
    ensures Repeats(names + [name]) <==> Repeats(names) || name in names
  {
    var all, n := names + [name], |names|;
    if Repeats(names) {
      var k, l :| 0 <= k < l < n && names[k] == names[l];
      assert all[k] == all[l];
    }
    if name in names {
      var k :| 0 <= k < n && names[k] == name;
      assert all[k] == all[n];
    }
    if Repeats(all) {
      var k, l :| 0 <= k < l < |all| && all[k] == all[l];
      if l < n { assert names[k] == names[l]; } else { assert names[k] == name; }
    }
  }

  lemma AnyOddSnoc(names: seq<string>, name: string)
    ensures AnyOdd(names + [name]) <==> AnyOdd(names) || OddName(name)
  {
    var all, n := names + [name], |names|;
    if AnyOdd(names) {
      var k :| 0 <= k < n && OddName(names[k]);
      assert OddName(all[k]);
    }
    if OddName(name) { assert OddName(all[n]); }
  }

  lemma NamesSnoc(page: string, attrs: seq<Attr>, a: Attr, lower: string -> string)
    ensures Names(page, attrs + [a], lower) == Names(page, attrs, lower) + [lower(NameOf(page, a))]
  {}

  method HasOdd(name: string) returns (odd: bool)
    ensures odd <==> OddName(name)
  {
    odd := false;
    for k := 0 to |name|
      invariant odd <==> exists j :: 0 <= j < k && (IsQuote(name[j]) || name[j] == '<')
    {
      odd := odd || IsQuote(name[k]) || name[k] == '<';
    }
  }

  /** The flags say what is wrong with the names. */
  predicate Flagged(page: string, t: Tag, lower: string -> string) {
    && (t.odd <==> AnyOdd(Names(page, t.attrs, Plain)))
    && (t.dupe <==> Repeats(Names(page, t.attrs, lower)))
  }

  lemma FlagOne(page: string, t: Tag, a: Attr, lower: string -> string, u: Tag)
    requires Flagged(page, t, lower) && u.attrs == t.attrs + [a]
    requires u.dupe <==> t.dupe || lower(NameOf(page, a)) in Names(page, t.attrs, lower)
    requires u.odd <==> t.odd || OddName(NameOf(page, a))
    ensures Flagged(page, u, lower)
  {
    hide Names, Repeats, AnyOdd, OddName;
    NamesSnoc(page, t.attrs, a, lower);
    NamesSnoc(page, t.attrs, a, Plain);
    RepeatsSnoc(Names(page, t.attrs, lower), lower(NameOf(page, a)));
    AnyOddSnoc(Names(page, t.attrs, Plain), NameOf(page, a));
  }

  /** Reading stands at i: bytes before it are done with, those up to `ahead` were looked at by one attribute. */
  ghost predicate TagLooks(looks: multiset<nat>, start: nat, i: nat, ahead: nat, limit: nat) {
    forall p: nat ::
      looks[p] <= if start < p < limit && p < i then TAG_LOOKS else if start < p < limit && p <= ahead then ATTR_LOOKS else 0
  }

  /** What a whole tag costs. */
  ghost predicate ReadOften(looks: multiset<nat>, start: nat, limit: nat, most: nat) {
    forall p: nat :: looks[p] <= if start < p < limit then most else 0
  }

  lemma TagNameLooks(run: multiset<nat>, start: nat, i: nat, limit: nat)
    requires start < i <= limit && OnceEach(run, start + 1, i, limit)
    ensures TagLooks(run + Copied(start + 1, i), start, i, i, limit)
  {
    hide Copied;
  }

  /** The gap up to g, which reaches past all that was looked at ahead, and the byte behind it. */
  lemma GapLooks(page: string, looks: multiset<nat>, gap: multiset<nat>, start: nat, i: nat, ahead: nat, g: nat, limit: nat)
    requires start < i <= ahead <= limit <= |page| && All(page, i, ahead, IsSpace)
    requires i <= g <= limit && (g < limit ==> !IsGap(page[g]))
    requires TagLooks(looks, start, i, ahead, limit) && OnceEach(gap, i, g, limit)
    ensures ahead <= g
    ensures ReadOften(looks + gap + Looked(g, limit), start, limit, TAG_LOOKS)
  {}

  lemma AttrLooksAdd(page: string, looks: multiset<nat>, gap: multiset<nat>, attr: multiset<nat>,
                     start: nat, i: nat, ahead: nat, g: nat, next: nat, further: nat, limit: nat)
    requires start < i <= ahead <= g < next <= further <= limit && i <= g
    requires TagLooks(looks, start, i, ahead, limit) && OnceEach(gap, i, g, limit) && AttrLooks(attr, g, further, limit)
    ensures TagLooks(looks + gap + Looked(g, limit) + attr, start, next, further, limit)
  {}

  /** What the lexer makes of the tag at start, read up to limit; `lower` folds the case of names. */
  ghost predicate IsTag(page: string, start: nat, limit: nat, t: Tag, lower: string -> string)
    requires limit <= |page|
  {
    && t.nameStart == start + 1
    && Chained(page, t, ReadUpTo(t, |t.attrs|), limit) && Closed(page, t, ReadUpTo(t, |t.attrs|), limit)
    && Flagged(page, t, lower)
  }

  /** The start tag at page[start], read to its `>` or to limit, each byte a bounded number of times. */
  method LexTag(page: string, start: nat, limit: nat, lower: string -> string) returns (t: Tag, ghost looks: multiset<nat>)
    requires start < limit <= |page|
    ensures IsTag(page, start, limit, t, lower)
    ensures ReadOften(looks, start, limit, TAG_LOOKS)
  {
    hide *;
    var i, run := RunUntil(page, start + 1, limit, EndsTagName);
    ghost var ahead := i;
    looks := run + Copied(start + 1, i);
    TagNameLooks(run, start, i, limit);
    t := Tag(start + 1, i, [], false, false, false);
    ghost var names: seq<string> := [];
    var seen: set<string> := {};
    NothingRead(page, t, i, limit, lower);
    assert All(page, i, ahead, IsSpace) by { NoneBetween(page, i); }
    while true
      invariant t.nameStart == start + 1 && start < i <= ahead <= limit && !t.unclosed
      invariant i == ReadUpTo(t, |t.attrs|) && Chained(page, t, i, limit) && Flagged(page, t, lower)
      invariant names == Names(page, t.attrs, lower) && forall n :: n in seen <==> n in names
      invariant All(page, i, ahead, IsSpace) && TagLooks(looks, start, i, ahead, limit)
      decreases limit - i
    {
      ghost var from, before := i, looks;
      i, run := SkipRun(page, i, limit, IsGap);
      GapLooks(page, before, run, start, from, ahead, i, limit);
      looks := before + run + Looked(i, limit);
      if i >= limit {
        ClosedAt(page, t, from, i, limit, lower);
        return t.(unclosed := true), looks;
      }
      if page[i] == '>' {
        ClosedAt(page, t, from, i, limit, lower);
        return;
      }
      var a, attr, further := LexAttr(page, i, limit);
      var name := lower(NameOf(page, a));
      var odd := HasOdd(NameOf(page, a));
      var u := t.(attrs := t.attrs + [a], dupe := t.dupe || name in seen, odd := t.odd || odd);
      ChainOne(page, t, from, i, limit, a, u);
      FlagOne(page, t, a, lower, u);
      NamesSnoc(page, t.attrs, a, lower);
      AttrAdvances(page, i, limit, a);
      AttrLooksAdd(page, before, run, attr, start, from, ahead, i, a.next, further, limit);
      t := u;
      names := names + [name];
      seen := seen + {name};
      looks, i, ahead := looks + attr, a.next, further;
      LastRead(page, t, i, limit);
    }
  }

  lemma NoneBetween(page: string, i: nat)
    requires i <= |page|
    ensures All(page, i, i, IsSpace)
  {}

  lemma LastRead(page: string, t: Tag, i: nat, limit: nat)
    requires Chained(page, t, i, limit)
    ensures i == ReadUpTo(t, |t.attrs|)
  {
    hide FollowsGap;
  }

  lemma AttrAdvances(page: string, i: nat, limit: nat, a: Attr)
    requires limit <= |page| && IsAttr(page, i, limit, a)
    ensures i < a.next <= limit
  {
    hide Without, All, QuotedValue, BareValue;
  }

  lemma NothingRead(page: string, t: Tag, i: nat, limit: nat, lower: string -> string)
    requires t.attrs == [] && !t.odd && !t.dupe && t.nameStart <= t.nameEnd == i <= limit <= |page|
    requires Without(page, t.nameStart, t.nameEnd, EndsTagName)
    ensures i == ReadUpTo(t, 0) && Chained(page, t, i, limit) && Flagged(page, t, lower) && Names(page, t.attrs, lower) == []
  {}

  lemma ClosedAt(page: string, t: Tag, from: nat, stop: nat, limit: nat, lower: string -> string)
    requires Chained(page, t, from, limit) && from <= stop <= limit && All(page, from, stop, IsGap)
    requires stop == limit || page[stop] == '>'
    requires Flagged(page, t, lower) && !t.unclosed && t.nameStart > 0
    ensures var u := if stop == limit then t.(unclosed := true) else t;
      from == ReadUpTo(u, |u.attrs|) && IsTag(page, t.nameStart - 1, limit, u, lower)
  {
    hide All, Without, IsAttr, Names, Repeats, AnyOdd;
    var u := t.(unclosed := true);
    forall k: nat | k < |t.attrs| ensures FollowsGap(page, u, k, limit) {
      assert FollowsGap(page, t, k, limit);
    }
  }

  // ---- the tags a malformed one may have swallowed --------------------------------------------

  predicate IsLetter(c: char) { 'a' <= c <= 'z' || 'A' <= c <= 'Z' }

  predicate OpensTag(page: string, i: nat) {
    i + 1 < |page| && page[i] == '<' && IsLetter(page[i + 1])
  }

  /** The positions of `<letter` inside the tag, in order. */
  ghost predicate Inner(page: string, start: nat, end: nat, inner: seq<nat>) {
    && (forall k, l | 0 <= k < l < |inner| :: inner[k] < inner[l])
    && (forall p :: p in inner <==> start < p && p + 1 < end && OpensTag(page, p))
  }

  /** Each `<letter` inside, in order; a byte is looked at for itself, and once more behind a `<`. */
  method InnerTags(page: string, start: nat, end: nat) returns (inner: seq<nat>, ghost looks: multiset<nat>)
    requires start < end <= |page|
    ensures Inner(page, start, end, inner)
    ensures ReadOften(looks, start, end, 2)
  {
    inner, looks := [], multiset{};
    var i := start + 1;
    while i < end - 1
      invariant start < i <= end && (start + 1 < end ==> i <= end - 1)
      invariant forall k | 0 <= k < |inner| :: inner[k] < i
      invariant forall k, l | 0 <= k < l < |inner| :: inner[k] < inner[l]
      invariant forall p :: p in inner <==> start < p < i && p + 1 < end && OpensTag(page, p)
      invariant forall p: nat :: looks[p] <= if start < p < i then 2 else if p == i < end then 1 else 0
    {
      looks := looks + multiset{i};
      if page[i] == '<' {
        looks := looks + multiset{i + 1};
        if IsLetter(page[i + 1]) { inner := inner + [i]; }
      }
      i := i + 1;
    }
  }

  /** The k-th swallowed tag is read up to the next one, the last up to the end. */
  function LimitOf(inner: seq<nat>, k: nat, end: nat): nat
    requires k < |inner|
  {
    if k + 1 < |inner| then inner[k + 1] else end
  }

  /** However many tags were swallowed, no byte is read for more than one of them. */
  lemma RescanReadsOnce(inner: seq<nat>, end: nat, j: nat, k: nat, p: nat)
    requires forall x, y | 0 <= x < y < |inner| :: inner[x] < inner[y]
    requires j < |inner| && k < |inner|
    requires inner[j] <= p < LimitOf(inner, j, end) && inner[k] <= p < LimitOf(inner, k, end)
    requires forall x | 0 <= x < |inner| :: inner[x] < end
    ensures j == k
  {}

  /** And every byte from the first of them on is read for one. */
  lemma RescanReadsAll(inner: seq<nat>, end: nat, p: nat) returns (k: nat)
    requires forall x, y | 0 <= x < y < |inner| :: inner[x] < inner[y]
    requires inner != [] && inner[0] <= p < end
    ensures k < |inner| && inner[k] <= p < LimitOf(inner, k, end)
    decreases |inner|
  {
    k := |inner| - 1;
    while inner[k] > p
      invariant k < |inner| && p < LimitOf(inner, k, end)
      decreases k
    {
      k := k - 1;
    }
  }

  const RESCAN_LOOKS: nat := TAG_LOOKS + 2

  /** The first k swallowed tags are read, with nothing looked at from the next one on but by the scan for them. */
  ghost predicate RescanLooks(looks: multiset<nat>, start: nat, upTo: nat, end: nat) {
    forall p: nat :: looks[p] <= if start < p < end then (if p < upTo then RESCAN_LOOKS else 2) else 0
  }

  lemma RescanOne(looks: multiset<nat>, tag: multiset<nat>, start: nat, at: nat, limit: nat, end: nat)
    requires start < at < limit <= end && RescanLooks(looks, start, at, end) && ReadOften(tag, at, limit, TAG_LOOKS)
    ensures RescanLooks(looks + tag, start, limit, end)
  {}

  lemma InnerLimits(page: string, start: nat, end: nat, inner: seq<nat>, k: nat)
    requires Inner(page, start, end, inner) && k < |inner|
    ensures start < inner[k] < LimitOf(inner, k, end) <= end
  {
    assert inner[k] in inner;
    if k + 1 < |inner| { assert inner[k + 1] in inner; }
  }

  /**
   * The second pass over a malformed tag: every tag it may have swallowed is read up to
   * the next one. However many there are, no byte is looked at more than ten times.
   */
  method Rescan(page: string, start: nat, end: nat, lower: string -> string) returns (inner: seq<nat>, tags: seq<Tag>, ghost looks: multiset<nat>)
    requires start < end <= |page|
    ensures Inner(page, start, end, inner) && |tags| == |inner|
    ensures forall k | 0 <= k < |tags| :: LimitOf(inner, k, end) <= |page| && IsTag(page, inner[k], LimitOf(inner, k, end), tags[k], lower)
    ensures ReadOften(looks, start, end, RESCAN_LOOKS)
  {
    hide Inner, IsTag, ReadOften, RescanLooks, OpensTag;
    inner, looks := InnerTags(page, start, end);
    tags := [];
    ScanLooks(looks, start, end);
    for k := 0 to |inner|
      invariant |tags| == k
      invariant forall j | 0 <= j < k :: LimitOf(inner, j, end) <= |page| && IsTag(page, inner[j], LimitOf(inner, j, end), tags[j], lower)
      invariant RescanLooks(looks, start, if k == 0 then 0 else LimitOf(inner, k - 1, end), end)
    {
      InnerLimits(page, start, end, inner, k);
      RescanFrom(looks, start, inner, k, end);
      var t, run := LexTag(page, inner[k], LimitOf(inner, k, end), lower);
      RescanOne(looks, run, start, inner[k], LimitOf(inner, k, end), end);
      tags, looks := tags + [t], looks + run;
    }
    RescanDone(looks, start, if inner == [] then 0 else LimitOf(inner, |inner| - 1, end), end);
  }

  lemma ScanLooks(looks: multiset<nat>, start: nat, end: nat)
    requires ReadOften(looks, start, end, 2)
    ensures RescanLooks(looks, start, 0, end)
  {}

  /** The next tag begins where the one before it ended. */
  lemma RescanFrom(looks: multiset<nat>, start: nat, inner: seq<nat>, k: nat, end: nat)
    requires k < |inner| && RescanLooks(looks, start, if k == 0 then 0 else LimitOf(inner, k - 1, end), end)
    ensures RescanLooks(looks, start, inner[k], end)
  {}

  lemma RescanDone(looks: multiset<nat>, start: nat, upTo: nat, end: nat)
    requires RescanLooks(looks, start, upTo, end)
    ensures ReadOften(looks, start, end, RESCAN_LOOKS)
  {}
}
