/**
 Comparing names: without regard to the case of ASCII letters, and against patterns.
 */
module Names {

  import opened Bytes
  import opened Content

  function Lower(b: byte): byte {
    if 65 <= b <= 90 then b + 32 else b
  }

  function Folded(s: cstring): (t: cstring)
    ensures |t| == |s|
  {
    seq(|s|, i requires 0 <= i < |s| => Lower(s[i]))
  }

  predicate SameName(a: cstring, b: cstring) {
    Folded(a) == Folded(b)
  }

  /** Two bytes that are the same letter, or the same byte. */
  predicate SameLetter(x: byte, y: byte) {
    x == y || (65 <= x <= 90 && y as int == x + 32) || (65 <= y <= 90 && x as int == y + 32)
  }

  /** As long as each other, and letter by letter the same. */
  lemma SameNameIff(a: cstring, b: cstring)
    ensures SameName(a, b) <==> |a| == |b| && forall i :: 0 <= i < |a| ==> SameLetter(a[i], b[i])
  {
    if Folded(a) == Folded(b) {
      forall i | 0 <= i < |a|
        ensures SameLetter(a[i], b[i])
      {
        assert Folded(a)[i] == Lower(a[i]) && Folded(b)[i] == Lower(b[i]);
      }
    }
    if |a| == |b| && forall i :: 0 <= i < |a| ==> SameLetter(a[i], b[i]) {
      assert forall i :: 0 <= i < |a| ==> Lower(a[i]) == Lower(b[i]);
    }
  }

  /** A name to compare with, or the prefix before a final '*'. */
  predicate Matches(pattern: cstring, name: cstring) {
    if |pattern| > 0 && pattern[|pattern| - 1] == 42 then
      var n := |pattern| - 1;
      |name| >= n && Folded(name[..n]) == Folded(pattern[..n])
    else SameName(pattern, name)
  }

  /** A pattern that ends in '*' asks for what stands before it, any other for the whole name. */
  lemma MatchesIff(pattern: cstring, name: cstring)
    ensures var n := |pattern| - 1;
            Matches(pattern, name) <==>
              if n >= 0 && pattern[n] == 42 then
                |name| >= n && forall i :: 0 <= i < n ==> SameLetter(pattern[i], name[i])
              else |name| == |pattern| && forall i :: 0 <= i < |name| ==> SameLetter(pattern[i], name[i])
  {
    var n := |pattern| - 1;
    SameNameIff(pattern, name);
    if n >= 0 && |name| >= n {
      SameNameIff(name[..n], pattern[..n]);
      assert forall i :: 0 <= i < n ==> name[..n][i] == name[i] && pattern[..n][i] == pattern[i];
    }
  }

  predicate Listed(patterns: seq<cstring>, name: cstring) {
    |name| > 0 && exists i :: 0 <= i < |patterns| && Matches(patterns[i], name)
  }

  /** The comparison of two zero-terminated strings in buffers, byte by byte. */
  method AsciiEq(a: seq<byte>, b: seq<byte>) returns (same: bool)
    requires 0 in a && 0 in b
    ensures same <==> SameName(Front(a), Front(b))
  {
    FrontIs(a);
    FrontIs(b);
    var i := 0;
    while true
      invariant 0 <= i <= |Front(a)| && i <= |Front(b)|
      invariant forall j :: 0 <= j < i ==> Lower(a[j]) == Lower(b[j])
      decreases |a| - i
    {
      var x, y := Lower(a[i]), Lower(b[i]);
      if x != y {
        Differ(a, b, i);
        return false;
      }
      if x == 0 {
        assert Folded(Front(a)) == Folded(Front(b));
        return true;
      }
      i := i + 1;
    }
  }

  /** The bytes of a buffer before its first zero. */
  function Front(s: seq<byte>): (t: cstring)
    requires 0 in s
    ensures |t| < |s|
    decreases |s|
  {
    if s[0] == 0 then [] else [s[0]] + Front(s[1..])
  }

  lemma {:induction false} FrontIs(s: seq<byte>)
    requires 0 in s
    ensures Front(s) == s[..|Front(s)|] && s[|Front(s)|] == 0
    decreases |s|
  {
    if s[0] != 0 {
      FrontIs(s[1..]);
    }
  }

  lemma Differ(a: seq<byte>, b: seq<byte>, i: nat)
    requires 0 in a && 0 in b && i <= |Front(a)| && i <= |Front(b)|
    requires Lower(a[i]) != Lower(b[i])
    ensures !SameName(Front(a), Front(b))
  {
    FrontIs(a);
    FrontIs(b);
    var x, y := Front(a), Front(b);
    if i < |x| && i < |y| {
      assert Folded(x)[i] == Lower(a[i]) && Folded(y)[i] == Lower(b[i]);
    }
  }
}
