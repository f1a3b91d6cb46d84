/**
 The two tests that keep ".." out of paths: the scanner the server runs over a
 peer's path, and the substring test for the target of a symbolic link.  Both are
 proved to look for a component "..", the components being what lies between slashes.
 */
module PathCheck {
  import opened Bytes

  function FirstSlash(s: string): (k: nat)
    ensures k <= |s| && (k < |s| ==> s[k] == '/') && forall i :: 0 <= i < k ==> s[i] != '/'
  {
    if s == [] || s[0] == '/' then 0 else FirstSlash(s[1..]) + 1
  }

  /** What lies between the slashes, empty components included */
  function Components(s: string): seq<string>
    decreases |s|
  {
    var k := FirstSlash(s);
    if k == |s| then [s] else [s[..k]] + Components(s[k + 1..])
  }

  predicate HasDotDot(s: string) {
    ".." in Components(s)
  }

  /** A component ".." that starts at `i` */
  predicate DotDotAt(s: string, i: int) {
    && 0 <= i && i + 2 <= |s| && s[i] == '.' && s[i + 1] == '.'
    && (i == 0 || s[i - 1] == '/') && (i + 2 == |s| || s[i + 2] == '/')
  }

  predicate DotDotFrom(s: string, from: int) {
    exists i :: from <= i < |s| && DotDotAt(s, i)
  }

  lemma {:induction false} ComponentIsPosition(s: string)
    ensures HasDotDot(s) <==> DotDotFrom(s, 0)
    decreases |s|
  {
    var k := FirstSlash(s);
    HeadIsDotDot(s, k);
    if k < |s| {
      var rest := s[k + 1..];
      ComponentIsPosition(rest);
      if DotDotFrom(rest, 0) {
        var i :| 0 <= i < |rest| && DotDotAt(rest, i);
        assert DotDotAt(s, i + k + 1);
      }
      if i :| 1 <= i < |s| && DotDotAt(s, i) {
        assert i - 1 >= k;
        assert DotDotAt(rest, i - k - 1);
      }
    }
  }

  lemma HeadIsDotDot(s: string, k: nat)
    requires k == FirstSlash(s)
    ensures s[..k] == ".." <==> DotDotAt(s, 0)
    ensures k == |s| ==> s[..k] == s && (DotDotFrom(s, 0) <==> DotDotAt(s, 0))
  {
    if s[..k] == ".." {
      assert s[0] == s[..k][0] && s[1] == s[..k][1];
    }
    if DotDotAt(s, 0) {
      assert k == 2;
    }
  }

  method FindFirstNoSlash(s: string, start: nat) returns (p: nat)
    requires start <= |s|
    ensures start <= p <= |s| && (p < |s| ==> s[p] != '/')
    ensures forall i :: start <= i < p ==> s[i] == '/'
  {
    p := start;
    while p < |s| && s[p] == '/'
      invariant start <= p <= |s| && forall i :: start <= i < p ==> s[i] == '/'
    {
      p := p + 1;
    }
  }

  method FindFirstSlash(s: string, start: nat) returns (p: nat)
    requires start <= |s|
    ensures start <= p <= |s| && (p < |s| ==> s[p] == '/')
    ensures forall i :: start <= i < p ==> s[i] != '/'
  {
    p := start;
    while p < |s| && s[p] != '/'
      invariant start <= p <= |s| && forall i :: start <= i < p ==> s[i] != '/'
    {
      p := p + 1;
    }
  }

  /** path_contain_dotdot */
  method PathContainDotdot(s: string) returns (found: bool)
    ensures found <==> HasDotDot(s)
  {
    ComponentIsPosition(s);
    var p := 0;
    while true
      invariant p <= |s| && (p == 0 || p == |s| || s[p] == '/')
      invariant DotDotFrom(s, p) <==> DotDotFrom(s, 0)
      decreases |s| - p
    {
      var q := FindFirstNoSlash(s, p);
      assert q > 0 ==> q == p || s[q - 1] == '/';
      SkipTo(s, p, q);
      if q == |s| {
        return false;
      }
      if |s| - q >= 2 && s[q] == '.' && s[q + 1] == '.' && (|s| - q == 2 || s[q + 2] == '/') {
        assert DotDotAt(s, q);
        return true;
      }
      p := FindFirstSlash(s, q);
      assert p > q;
      SkipTo(s, q, p);
    }
  }

  lemma SkipTo(s: string, a: nat, b: nat)
    requires a <= b <= |s| && forall i :: a <= i < b ==> !DotDotAt(s, i)
    ensures DotDotFrom(s, a) <==> DotDotFrom(s, b)
  {
  }

  predicate Occurs(s: string, pattern: string, i: int) {
    0 <= i <= |s| - |pattern| && s[i..i + |pattern|] == pattern
  }

  /** strstr */
  method StrStr(s: string, pattern: string) returns (found: bool)
    ensures found <==> exists i :: 0 <= i <= |s| && Occurs(s, pattern, i)
  {
    for i := 0 to |s| + 1
      invariant forall k :: 0 <= k < i ==> !Occurs(s, pattern, k)
    {
      if i + |pattern| <= |s| && s[i..i + |pattern|] == pattern {
        assert Occurs(s, pattern, i);
        return true;
      }
    }
    return false;
  }

  /** symname_is_allowed: agrees with the server's test on every target shorter than PATH_MAX. */
  method SymnameIsAllowed(s: string) returns (allowed: bool)
    ensures allowed <==> |s| < PATH_MAX && !HasDotDot(s)
  {
    ComponentIsPosition(s);
    if |s| >= PATH_MAX {
      return false;
    }
    var inner := StrStr(s, "/../");
    FourCases(s);
    if inner {
      return false;
    }
    if |s| == 2 && s[..2] == ".." {
      return false;
    }
    if |s| >= 3 && s[..3] == "../" {
      return false;
    }
    if |s| >= 3 && s[|s| - 3..] == "/.." {
      return false;
    }
    return true;
  }

  /** A component ".." is the whole path, its head, its tail, or stands between two slashes. */
  lemma FourCases(s: string)
    ensures DotDotFrom(s, 0) <==>
      || (exists i :: 0 <= i <= |s| && Occurs(s, "/../", i))
      || (|s| == 2 && s[..2] == "..")
      || (|s| >= 3 && s[..3] == "../")
      || (|s| >= 3 && s[|s| - 3..] == "/..")
  {
    if i :| 0 <= i <= |s| && Occurs(s, "/../", i) {
      InnerIsDotDot(s, i + 1);
    }
    if i :| 0 <= i < |s| && DotDotAt(s, i) && 0 < i < |s| - 2 {
      InnerIsDotDot(s, i);
    }
    assert DotDotAt(s, 0) <==> (|s| == 2 && s[..2] == "..") || (|s| >= 3 && s[..3] == "../");
    assert |s| >= 3 ==> (DotDotAt(s, |s| - 2) <==> s[|s| - 3..] == "/..");
  }

  lemma InnerIsDotDot(s: string, i: nat)
    requires 0 < i && i + 2 < |s|
    ensures DotDotAt(s, i) <==> Occurs(s, "/../", i - 1)
  {
    var w := s[i - 1..i + 3];
    assert w == [s[i - 1], s[i], s[i + 1], s[i + 2]];
  }
}
