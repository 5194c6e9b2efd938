/** The length-prefixed buffer a credential's fingerprint is the hash of. */
module Fingerprint {

  type Octet = b: int | 0 <= b < 256

  /** Base 128, low group first, the high bit set on every group but the last. */
  function Uvarint(x: nat): (r: seq<Octet>)
    ensures r != []
  {
    if x < 128 then [x] else [128 + x % 128] + Uvarint(x / 128)
  }

  method AppendUvarint(buf: seq<Octet>, value: nat) returns (r: seq<Octet>)
    ensures r == buf + Uvarint(value)
  {
    var x := value;
    r := buf;
    while x >= 128
      invariant r + Uvarint(x) == buf + Uvarint(value)
    {
      assert Uvarint(x) == [128 + x % 128] + Uvarint(x / 128);
      r := r + [128 + x % 128];
      x := x / 128;
    }
    r := r + [x];
  }

  function Entry(part: seq<Octet>): seq<Octet> { Uvarint(|part|) + part }

  function Prefixed(parts: seq<seq<Octet>>): seq<Octet> {
    if parts == [] then [] else Prefixed(parts[..|parts| - 1]) + Entry(parts[|parts| - 1])
  }

  method Buffer(username: seq<Octet>, secret: seq<Octet>, session: seq<Octet>) returns (buf: seq<Octet>)
    ensures buf == Prefixed([username, secret, session])
  {
    var parts := [username, secret, session];
    buf := [];
    for i := 0 to |parts|
      invariant buf == Prefixed(parts[..i])
    {
      assert parts[..i + 1][..i] == parts[..i];
      var r := AppendUvarint(buf, |parts[i]|);
      buf := r + parts[i];
    }
    assert parts[..|parts|] == parts;
  }

  /** A length is read back from the front of a buffer, whatever follows it. */
  lemma {:induction false} UvarintPrefixFree(x: nat, y: nat, s: seq<Octet>, t: seq<Octet>)
    requires Uvarint(x) + s == Uvarint(y) + t
    ensures x == y && s == t
    decreases x
  {
    var u, v := Uvarint(x), Uvarint(y);
    assert (u + s)[0] == u[0] && (v + t)[0] == v[0];
    if x < 128 {
      assert y == x;
      assert s == (u + s)[1..] && t == (v + t)[1..];
    } else {
      assert y >= 128 && x % 128 == y % 128;
      assert (u + s)[1..] == Uvarint(x / 128) + s && (v + t)[1..] == Uvarint(y / 128) + t;
      UvarintPrefixFree(x / 128, y / 128, s, t);
    }
  }

  /** Read front to back, as the injectivity proof does. */
  lemma {:induction false} PrefixedFront(parts: seq<seq<Octet>>)
    requires parts != []
    ensures Prefixed(parts) == Entry(parts[0]) + Prefixed(parts[1..])
    decreases |parts|
  {
    hide Entry;
    var n := |parts| - 1;
    if n > 0 {
      var rest := parts[1..];
      PrefixedFront(parts[..n]);
      assert parts[..n][1..] == rest[..n - 1];
      assert Prefixed(rest) == Prefixed(rest[..n - 1]) + Entry(rest[n - 1]);
    }
  }

  /** Different parts never give the same buffer, however their bytes are split. */
  lemma {:induction false} PrefixedInjective(a: seq<seq<Octet>>, b: seq<seq<Octet>>)
    requires Prefixed(a) == Prefixed(b)
    ensures a == b
    decreases |a|
  {
    if a == [] {
      if b != [] { PrefixedFront(b); }
    } else if b == [] {
      PrefixedFront(a);
    } else {
      PrefixedFront(a);
      PrefixedFront(b);
      assert Entry(a[0]) + Prefixed(a[1..]) == Uvarint(|a[0]|) + (a[0] + Prefixed(a[1..]));
      assert Entry(b[0]) + Prefixed(b[1..]) == Uvarint(|b[0]|) + (b[0] + Prefixed(b[1..]));
      var s, t := a[0] + Prefixed(a[1..]), b[0] + Prefixed(b[1..]);
      UvarintPrefixFree(|a[0]|, |b[0]|, s, t);
      assert a[0] == s[..|a[0]|] && b[0] == t[..|b[0]|];
      assert Prefixed(a[1..]) == s[|a[0]|..] && Prefixed(b[1..]) == t[|b[0]|..];
      PrefixedInjective(a[1..], b[1..]);
      assert a == [a[0]] + a[1..] && b == [b[0]] + b[1..];
    }
  }

  /** Two credentials share a buffer exactly when user name, secret and session are all the same. */
  lemma SameBufferSameCredential(u1: seq<Octet>, p1: seq<Octet>, s1: seq<Octet>, u2: seq<Octet>, p2: seq<Octet>, s2: seq<Octet>)
    ensures Prefixed([u1, p1, s1]) == Prefixed([u2, p2, s2]) <==> u1 == u2 && p1 == p2 && s1 == s2
  {
    hide Prefixed;
    var a, b := [u1, p1, s1], [u2, p2, s2];
    if Prefixed(a) == Prefixed(b) {
      PrefixedInjective(a, b);
      assert a[0] == b[0] && a[1] == b[1] && a[2] == b[2];
    }
  }
}
