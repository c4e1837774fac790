/** The PHP string primitives the parser relies on: strpos of one character, explode and its
    inverse implode, trim with its default character list, and ASCII lower-casing. */
module Text {

  /** Position of the first `c` in `s`, or |s| when `s` has none. */
  function IndexOf(s: string, c: char): (r: nat)
    ensures r <= |s|
    ensures r < |s| ==> s[r] == c
    ensures forall k :: 0 <= k < r ==> s[k] != c
  {
    if s == [] then 0
    else if s[0] == c then 0
    else 1 + IndexOf(s[1..], c)
  }

  lemma IndexOfAbsent(s: string, c: char)
    ensures IndexOf(s, c) == |s| <==> c !in s
  {
  }

  /** `d` occurs in `s` starting at position `i`. */
  predicate Occurs(s: string, d: string, i: nat)
  {
    i + |d| <= |s| && s[i..i + |d|] == d
  }

  predicate Contains(s: string, d: string)
  {
    exists i: nat :: i <= |s| && Occurs(s, d, i)
  }

  lemma OccursInTail(s: string, d: string, i: nat)
    requires s != []
    ensures Occurs(s[1..], d, i) <==> Occurs(s, d, i + 1)
  {
    if i + 1 + |d| <= |s| {
      assert s[1..][i..i + |d|] == s[i + 1..i + 1 + |d|];
    }
  }

  lemma OccursInPrefix(s: string, d: string, n: nat, i: nat)
    requires n <= |s|
    ensures Occurs(s[..n], d, i) <==> (Occurs(s, d, i) && i + |d| <= n)
  {
    if i + |d| <= n {
      assert s[..n][i..i + |d|] == s[i..i + |d|];
    }
  }

  /** A one-character needle occurs exactly where that character stands. */
  lemma OccursChar(s: string, c: char, i: nat)
    ensures Occurs(s, [c], i) <==> (i < |s| && s[i] == c)
  {
    if i < |s| {
      assert s[i..i + 1] == [s[i]];
    }
  }

  /** Start of the leftmost occurrence of the non-empty needle `d` in `s`, or |s| when there is none. */
  function FirstOccurrence(s: string, d: string): (r: nat)
    requires d != []
    ensures r <= |s|
    ensures r < |s| ==> Occurs(s, d, r)
    ensures forall k: nat :: k < r ==> !Occurs(s, d, k)
    ensures r == |s| ==> !Contains(s, d)
    decreases |s|
  {
    if |s| < |d| then |s|
    else if s[..|d|] == d then 0
    else
      var r' := FirstOccurrence(s[1..], d);
      assert forall k: nat :: Occurs(s[1..], d, k) <==> Occurs(s, d, k + 1) by {
        forall k: nat ensures Occurs(s[1..], d, k) <==> Occurs(s, d, k + 1) {
          OccursInTail(s, d, k);
        }
      }
      assert forall k: nat :: 0 < k <= r' ==> !Occurs(s, d, k) by {
        forall k: nat | 0 < k <= r' ensures !Occurs(s, d, k) {
          assert !Occurs(s[1..], d, k - 1);
        }
      }
      1 + r'
  }

  /** PHP implode: the parts separated by `d`. */
  function Join(parts: seq<string>, d: string): string
  {
    if parts == [] then ""
    else if |parts| == 1 then parts[0]
    else parts[0] + d + Join(parts[1..], d)
  }

  /** PHP explode with a non-empty delimiter and no limit: the pieces between successive
      leftmost occurrences of `d`, scanning left to right. */
  function Explode(s: string, d: string): (r: seq<string>)
    requires d != []
    ensures |r| >= 1
    ensures Join(r, d) == s
    ensures forall i :: 0 <= i < |r| ==> !Contains(r[i], d)
    ensures SplitsLeftmost(r, d)
    decreases |s|
  {
    var i := FirstOccurrence(s, d);
    if i == |s| then [s]
    else
      var rest := Explode(s[i + |d|..], d);
      ExplodeStep(s, d, i, rest);
      var r := [s[..i]] + rest;
      assert forall k :: 1 <= k < |r| ==> r[k..] == rest[k - 1..];
      r
  }

  /** Each piece but the last ends where the leftmost occurrence of `d` in the rest of the
      joined string begins. */
  predicate SplitsLeftmost(parts: seq<string>, d: string)
    requires d != []
  {
    forall i :: 0 <= i < |parts| - 1 ==> FirstOccurrence(Join(parts[i..], d), d) == |parts[i]|
  }

  /** The piece before the first occurrence holds no occurrence, and splitting there loses nothing. */
  lemma ExplodeStep(s: string, d: string, i: nat, rest: seq<string>)
    requires d != [] && i < |s| && i == FirstOccurrence(s, d)
    requires |rest| >= 1 && Join(rest, d) == s[i + |d|..]
    ensures !Contains(s[..i], d)
    ensures Join([s[..i]] + rest, d) == s
  {
    NoOccurrenceBefore(s, d, i);
    var parts := [s[..i]] + rest;
    assert |parts| >= 2 && parts[0] == s[..i] && parts[1..] == rest;
    assert Join(parts, d) == s[..i] + d + s[i + |d|..];
    SplitAround(s, d, i);
  }

  lemma SplitAround(s: string, d: string, i: nat)
    requires Occurs(s, d, i)
    ensures s[..i] + d + s[i + |d|..] == s
  {
    assert s == s[..i] + s[i..i + |d|] + s[i + |d|..];
  }

  lemma NoOccurrenceBefore(s: string, d: string, i: nat)
    requires d != [] && i <= |s| && i <= FirstOccurrence(s, d)
    ensures !Contains(s[..i], d)
  {
    if Contains(s[..i], d) {
      var k: nat :| k <= i && Occurs(s[..i], d, k);
      OccursInPrefix(s, d, i, k);
      assert false;
    }
  }

  /** With a one-character delimiter, explode undoes implode on pieces that do not contain it. */
  lemma {:induction false} ExplodeJoin(parts: seq<string>, c: char)
    requires |parts| >= 1
    requires forall i :: 0 <= i < |parts| ==> c !in parts[i]
    ensures Explode(Join(parts, [c]), [c]) == parts
    decreases |parts|
  {
    var s := Join(parts, [c]);
    var r := FirstOccurrence(s, [c]);
    if |parts| == 1 {
      if r < |s| {
        OccursChar(s, c, r);
      }
    } else {
      var p := parts[0];
      assert s == p + [c] + Join(parts[1..], [c]);
      OccursChar(s, c, |p|);
      if r < |p| {
        OccursChar(s, c, r);
      }
      assert r == |p|;
      assert s[..r] == p;
      assert s[r + 1..] == Join(parts[1..], [c]);
      ExplodeJoin(parts[1..], c);
    }
  }

  /** Explode is the only split of a string into pieces free of `d` that breaks at leftmost
      occurrences: it undoes implode on such pieces, for any non-empty delimiter. */
  lemma {:induction false} ExplodeUnique(parts: seq<string>, d: string)
    requires d != [] && |parts| >= 1
    requires forall i :: 0 <= i < |parts| ==> !Contains(parts[i], d)
    requires SplitsLeftmost(parts, d)
    ensures Explode(Join(parts, d), d) == parts
    decreases |parts|
  {
    var s := Join(parts, d);
    var r := FirstOccurrence(s, d);
    if |parts| > 1 {
      var p := parts[0];
      assert s == p + d + Join(parts[1..], d);
      assert parts[0..] == parts;
      assert r == |p|;
      assert s[..r] == p;
      assert s[r + |d|..] == Join(parts[1..], d);
      assert SplitsLeftmost(parts[1..], d) by {
        forall i | 0 <= i < |parts[1..]| - 1
          ensures FirstOccurrence(Join(parts[1..][i..], d), d) == |parts[1..][i]|
        {
          assert parts[1..][i..] == parts[i + 1..];
        }
      }
      ExplodeUnique(parts[1..], d);
    }
  }

  /** The characters PHP's trim strips by default: space, tab, newline, carriage return, NUL and
      vertical tab. */
  predicate IsTrimmable(c: char)
  {
    c == ' ' || c == '\t' || c == '\n' || c == '\r' || c == '\0' || c == '\U{0B}'
  }

  predicate IsTrimmed(s: string)
  {
    s == [] || (!IsTrimmable(s[0]) && !IsTrimmable(s[|s| - 1]))
  }

  function TrimLeft(s: string): (r: string)
    ensures |r| <= |s| && r == s[|s| - |r|..]
    ensures r == [] || !IsTrimmable(r[0])
    ensures forall k :: 0 <= k < |s| - |r| ==> IsTrimmable(s[k])
  {
    if s != [] && IsTrimmable(s[0]) then TrimLeft(s[1..]) else s
  }

  function TrimRight(s: string): (r: string)
    ensures |r| <= |s| && r == s[..|r|]
    ensures r == [] || !IsTrimmable(r[|r| - 1])
    ensures forall k :: |r| <= k < |s| ==> IsTrimmable(s[k])
  {
    if s != [] && IsTrimmable(s[|s| - 1]) then TrimRight(s[..|s| - 1]) else s
  }

  /** PHP trim: `s` without its leading and trailing trimmable characters. */
  function Trim(s: string): (r: string)
    ensures IsTrimmed(r)
    ensures TrimStart(s) + |r| <= |s| && r == s[TrimStart(s)..TrimStart(s) + |r|]
    ensures forall k :: 0 <= k < TrimStart(s) ==> IsTrimmable(s[k])
    ensures forall k :: TrimStart(s) + |r| <= k < |s| ==> IsTrimmable(s[k])
  {
    var l := TrimLeft(s);
    var r := TrimRight(l);
    assert r == s[TrimStart(s)..TrimStart(s) + |r|];
    r
  }

  /** Number of leading characters trim removes. */
  function TrimStart(s: string): nat
  {
    |s| - |TrimLeft(s)|
  }

  lemma TrimOfTrimmed(s: string)
    requires IsTrimmed(s)
    ensures Trim(s) == s
  {
  }

  lemma TrimIdempotent(s: string)
    ensures Trim(Trim(s)) == Trim(s)
  {
    TrimOfTrimmed(Trim(s));
  }

  /** ASCII lower-casing, the folding PHP applies to method names. */
  function LowerChar(c: char): char
  {
    if 'A' <= c <= 'Z' then (c as int + 32) as char else c
  }

  function Lower(s: string): (r: string)
    ensures |r| == |s|
    ensures forall i :: 0 <= i < |s| ==> r[i] == LowerChar(s[i])
  {
    seq(|s|, i requires 0 <= i < |s| => LowerChar(s[i]))
  }
}
