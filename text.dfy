/**
  Text: Python's `str.strip()` without arguments, the only string operation the
  quote selection of every version of the awareness bell relies on.
  `str.strip()` removes leading and trailing characters for which
  `str.isspace()` holds; IsSpace lists exactly those code points.
 */
module Text {

  /** The characters Python's `str.isspace()` accepts: the blank, tab,
      newline, carriage return, vertical tab and form feed, the four ASCII
      separators, and the Unicode spaces and line and paragraph separators;
      no ASCII letter or digit, and nothing above U+3000. */
  function IsSpace(c: char): (b: bool)
    ensures c == ' ' || c == '\t' || c == '\n' || c == '\r' ==> b
    ensures b ==> c as int <= 0x3000
    ensures b ==> !('0' <= c <= '9') && !('a' <= c <= 'z') && !('A' <= c <= 'Z')
  {
    var n := c as int;
    n == 0x20 || 0x09 <= n <= 0x0D || 0x1C <= n <= 0x1F || n == 0x85 || n == 0xA0
    || n == 0x1680 || 0x2000 <= n <= 0x200A || n == 0x2028 || n == 0x2029
    || n == 0x202F || n == 0x205F || n == 0x3000
  }

  /** Every character of s is whitespace (this includes the empty string). */
  predicate AllSpace(s: string) {
    forall i :: 0 <= i < |s| ==> IsSpace(s[i])
  }

  /** s has no whitespace at either end. */
  predicate Trimmed(s: string) {
    s == [] || (!IsSpace(s[0]) && !IsSpace(s[|s| - 1]))
  }

  /** `s.lstrip()`: drop leading whitespace. */
  function TrimStart(s: string): (r: string)
    ensures |r| <= |s|
  {
    if s != [] && IsSpace(s[0]) then TrimStart(s[1..]) else s
  }

  /** `s.rstrip()`: drop trailing whitespace. */
  function TrimEnd(s: string): (r: string)
    ensures |r| <= |s|
  {
    if s != [] && IsSpace(s[|s| - 1]) then TrimEnd(s[..|s| - 1]) else s
  }

  /** `lstrip` keeps the longest suffix that does not start with whitespace. */
  lemma {:induction false} TrimStartSpec(s: string)
    ensures var r := TrimStart(s);
      |r| <= |s| && r == s[|s| - |r|..] && AllSpace(s[..|s| - |r|]) && (r == [] || !IsSpace(r[0]))
  {
    if s != [] && IsSpace(s[0]) {
      var t := s[1..];
      TrimStartSpec(t);
      var r := TrimStart(t);
      assert TrimStart(s) == r;
      var k := |s| - |r|;
      assert t[|t| - |r|..] == s[k..];
      var lead := s[..k];
      assert AllSpace(lead) by {
        forall i | 0 <= i < |lead| ensures IsSpace(lead[i]) {
          if i > 0 { assert lead[i] == t[..|t| - |r|][i - 1]; }
        }
      }
    }
  }

  /** `rstrip` keeps the longest prefix that does not end with whitespace. */
  lemma {:induction false} TrimEndSpec(s: string)
    ensures var r := TrimEnd(s);
      |r| <= |s| && r == s[..|r|] && AllSpace(s[|r|..]) && (r == [] || !IsSpace(r[|r| - 1]))
  {
    if s != [] && IsSpace(s[|s| - 1]) {
      var t := s[..|s| - 1];
      TrimEndSpec(t);
      var r := TrimEnd(t);
      assert TrimEnd(s) == r;
      assert t[..|r|] == s[..|r|];
      var trail := s[|r|..];
      assert AllSpace(trail) by {
        forall i | 0 <= i < |trail| ensures IsSpace(trail[i]) {
          if i < |trail| - 1 { assert trail[i] == t[|r|..][i]; }
        }
      }
    }
  }

  /** The number of whitespace characters `strip` removes from the front. */
  function Lead(s: string): (n: nat)
    ensures n <= |s|
  {
    TrimStartSpec(s);
    |s| - |TrimStart(s)|
  }

  /** `s.strip()`: s without its leading and trailing whitespace. The result
      has no whitespace at either end, and it is empty exactly when s is
      blank (StripSlice says where in s it lies). */
  function Strip(s: string): (r: string)
    ensures Trimmed(r)
    ensures r == [] <==> AllSpace(s)
  {
    TrimBothEnds(s);
    TrimBothEndsBlank(s);
    TrimEnd(TrimStart(s))
  }

  /** The strip of s is the slice of s that starts after the leading
      whitespace, and everything around it is whitespace. */
  lemma StripSlice(s: string)
    ensures Lead(s) + |Strip(s)| <= |s| && Strip(s) == s[Lead(s)..Lead(s) + |Strip(s)|]
    ensures AllSpace(s[..Lead(s)]) && AllSpace(s[Lead(s) + |Strip(s)|..])
  {
    TrimBothEnds(s);
  }

  /** Where Strip's body lies in s, and that it has no whitespace at its ends. */
  lemma TrimBothEnds(s: string)
    ensures Trimmed(TrimEnd(TrimStart(s)))
    ensures Lead(s) + |TrimEnd(TrimStart(s))| <= |s|
    ensures TrimEnd(TrimStart(s)) == s[Lead(s)..Lead(s) + |TrimEnd(TrimStart(s))|]
    ensures AllSpace(s[..Lead(s)])
    ensures AllSpace(s[Lead(s) + |TrimEnd(TrimStart(s))|..])
  {
    var t := TrimStart(s);
    var r := TrimEnd(t);
    var l := Lead(s);
    TrimStartSpec(s);
    TrimEndSpec(t);
    assert t == s[l..];
    assert r == t[..|r|];
    assert t[|r|..] == s[l + |r|..];
  }

  /** Strip's body is empty exactly when s is blank. */
  lemma TrimBothEndsBlank(s: string)
    ensures TrimEnd(TrimStart(s)) == [] <==> AllSpace(s)
  {
    var r := TrimEnd(TrimStart(s));
    var l := Lead(s);
    TrimBothEnds(s);
    if r == [] {
      BlankParts(s, l);
    } else {
      assert r[0] == s[l];
      NotAllSpace(s, l);
    }
  }

  lemma NotAllSpace(s: string, i: nat)
    requires i < |s| && !IsSpace(s[i])
    ensures !AllSpace(s)
  {
  }

  lemma BlankParts(s: string, l: nat)
    requires l <= |s| && AllSpace(s[..l]) && AllSpace(s[l..])
    ensures AllSpace(s)
  {
    forall i | 0 <= i < |s| ensures IsSpace(s[i]) {
      if i < l {
        assert s[i] == s[..l][i];
      } else {
        assert s[i] == s[l..][i - l];
      }
    }
  }

  /** Stripping a string without whitespace at its ends changes nothing. */
  lemma TrimmedIsFixed(s: string)
    requires Trimmed(s)
    ensures Strip(s) == s
  {
  }

  /** `strip` is idempotent. */
  lemma StripIdempotent(s: string)
    ensures Strip(Strip(s)) == Strip(s)
  {
    TrimmedIsFixed(Strip(s));
  }

  lemma {:induction false} TrimStartSkips(a: string, t: string)
    requires AllSpace(a)
    requires t == [] || !IsSpace(t[0])
    ensures TrimStart(a + t) == t
  {
    if a == [] {
      assert a + t == t;
    } else {
      assert (a + t)[1..] == a[1..] + t;
      assert AllSpace(a[1..]) by {
        forall i | 0 <= i < |a[1..]| ensures IsSpace(a[1..][i]) {
          assert a[1..][i] == a[i + 1];
        }
      }
      TrimStartSkips(a[1..], t);
    }
  }

  lemma {:induction false} TrimEndSkips(t: string, b: string)
    requires AllSpace(b)
    requires t == [] || !IsSpace(t[|t| - 1])
    ensures TrimEnd(t + b) == t
  {
    if b == [] {
      assert t + b == t;
    } else {
      var b' := b[..|b| - 1];
      assert (t + b)[..|t + b| - 1] == t + b';
      assert AllSpace(b') by {
        forall i | 0 <= i < |b'| ensures IsSpace(b'[i]) {
          assert b'[i] == b[i];
        }
      }
      TrimEndSkips(t, b');
    }
  }

  /** Strip is the unique decomposition "whitespace, trimmed middle,
      whitespace": whenever s splits that way, Strip returns the middle. */
  lemma StripUnique(a: string, m: string, b: string)
    requires AllSpace(a) && Trimmed(m) && AllSpace(b)
    ensures Strip(a + m + b) == m
  {
    assert a + m + b == a + (m + b);
    if m == [] {
      var s := a + m + b;
      assert AllSpace(s) by {
        forall i | 0 <= i < |s| ensures IsSpace(s[i]) {
          if i < |a| { assert s[i] == a[i]; } else { assert s[i] == b[i - |a|]; }
        }
      }
    } else {
      assert (m + b)[0] == m[0];
      TrimStartSkips(a, m + b);
      TrimEndSkips(m, b);
    }
  }
}
