/**
 * The few `java.lang.String` operations the services rely on, over
 * `seq<char>`: `startsWith`, `trim`, `isBlank` and `replace(target, "")`.
 */
module JavaString {

  /** `s.startsWith(p)`: a case-sensitive prefix test. */
  predicate StartsWith(s: string, p: string) {
    |p| <= |s| && s[..|p|] == p
  }

  /** The characters `String.trim` removes: every code unit at or below U+0020. */
  predicate Trimmable(c: char) {
    c <= ' '
  }

  predicate AllTrimmable(s: string) {
    forall i :: 0 <= i < |s| ==> Trimmable(s[i])
  }

  /** The leading half of `trim`: drop every trimmable character at the front. */
  function TrimStart(s: string): (r: string)
    ensures |r| <= |s| && r == s[|s| - |r|..]
    ensures r == [] || !Trimmable(r[0])
    decreases |s|
  {
    if |s| > 0 && Trimmable(s[0]) then TrimStart(s[1..]) else s
  }

  /** The trailing half of `trim`: drop every trimmable character at the back. */
  function TrimEnd(s: string): (r: string)
    ensures |r| <= |s| && r == s[..|r|]
    ensures r == [] || !Trimmable(r[|r| - 1])
    decreases |s|
  {
    if |s| > 0 && Trimmable(s[|s| - 1]) then TrimEnd(s[..|s| - 1]) else s
  }

  /**
   * `s.trim()`: the result neither starts nor ends with a trimmable
   * character, and it is empty exactly when every character of `s` is
   * trimmable. `TrimCuts` shows that it is a contiguous piece of `s`.
   */
  function Trim(s: string): (r: string)
    ensures |r| <= |s|
    ensures r == [] || (!Trimmable(r[0]) && !Trimmable(r[|r| - 1]))
    ensures r == [] <==> AllTrimmable(s)
  {
    TrimParts(s);
    TrimEnd(TrimStart(s))
  }

  /** How many characters `trim` cuts from the front of `s`. */
  function Leading(s: string): (k: nat)
    ensures k <= |s|
  {
    |s| - |TrimStart(s)|
  }

  /**
   * `trim` keeps a contiguous piece of `s`, starting after the `Leading(s)`
   * characters it cuts at the front, and cuts only trimmable characters,
   * before it and after it.
   */
  lemma TrimCuts(s: string)
    ensures var k := Leading(s);
            && k + |Trim(s)| <= |s| && Trim(s) == s[k..k + |Trim(s)|]
            && (forall i :: 0 <= i < k ==> Trimmable(s[i]))
            && (forall i :: k + |Trim(s)| <= i < |s| ==> Trimmable(s[i]))
  {
    var t := TrimStart(s);
    var r := Trim(s);
    assert r == TrimEnd(t);
    assert AllTrimmable(s[..|s| - |t|]) by {
      TrimStartDrops(s);
    }
    assert AllTrimmable(t[|r|..]) by {
      TrimEndDrops(t);
    }
    CutsAround(s, t, r);
    assert Leading(s) == |s| - |t|;
  }

  /**
   * A suffix `t` of `s` after a trimmable front, and a prefix `r` of `t`
   * before a trimmable back: `r` sits inside `s` with only trimmable
   * characters around it.
   */
  lemma CutsAround(s: string, t: string, r: string)
    requires |t| <= |s| && t == s[|s| - |t|..] && AllTrimmable(s[..|s| - |t|])
    requires |r| <= |t| && r == t[..|r|] && AllTrimmable(t[|r|..])
    ensures var k := |s| - |t|;
            && k + |r| <= |s| && r == s[k..k + |r|]
            && (forall i :: 0 <= i < k ==> Trimmable(s[i]))
            && (forall i :: k + |r| <= i < |s| ==> Trimmable(s[i]))
  {
    var k := |s| - |t|;
    forall i | 0 <= i < k ensures Trimmable(s[i]) {
      assert s[..k][i] == s[i];
    }
    forall i | k + |r| <= i < |s| ensures Trimmable(s[i]) {
      assert t[|r|..][i - k - |r|] == s[i];
    }
  }

  /** Only trimmable characters are dropped, from either end. */
  lemma TrimParts(s: string)
    ensures TrimEnd(TrimStart(s)) == [] <==> AllTrimmable(s)
  {
    var t := TrimStart(s);
    var r := TrimEnd(t);
    if r == [] {
      assert t == [] by {
        TrimEndDrops(t);
      }
      assert AllTrimmable(s) by {
        TrimStartDrops(s);
        assert s[..|s| - |t|] == s;
      }
    } else {
      assert r[0] == t[0];
      assert s[|s| - |t|] == t[0];
    }
  }

  /** What `TrimStart` drops is trimmable. */
  lemma {:induction false} TrimStartDrops(s: string)
    ensures AllTrimmable(s[..|s| - |TrimStart(s)|])
    decreases |s|
  {
    if |s| > 0 && Trimmable(s[0]) {
      TrimStartDrops(s[1..]);
      var k := |s| - |TrimStart(s)|;
      forall i | 0 <= i < k ensures Trimmable(s[..k][i]) {
        if i > 0 {
          assert s[..k][i] == s[1..][..k - 1][i - 1];
        }
      }
    }
  }

  /** What `TrimEnd` drops is trimmable. */
  lemma {:induction false} TrimEndDrops(s: string)
    ensures AllTrimmable(s[|TrimEnd(s)|..])
    decreases |s|
  {
    if |s| > 0 && Trimmable(s[|s| - 1]) {
      var p := s[..|s| - 1];
      TrimEndDrops(p);
      var n := |TrimEnd(s)|;
      forall i | 0 <= i < |s| - n ensures Trimmable(s[n..][i]) {
        if n + i < |s| - 1 {
          assert s[n..][i] == p[n..][i];
        }
      }
    }
  }

  lemma {:induction false} TrimStartSkips(a: string, m: string)
    requires AllTrimmable(a)
    requires m == [] || !Trimmable(m[0])
    ensures TrimStart(a + m) == m
    decreases |a|
  {
    if a == [] {
      assert a + m == m;
    } else {
      assert (a + m)[1..] == a[1..] + m;
      TrimStartSkips(a[1..], m);
    }
  }

  lemma {:induction false} TrimEndSkips(m: string, b: string)
    requires AllTrimmable(b)
    requires m == [] || !Trimmable(m[|m| - 1])
    ensures TrimEnd(m + b) == m
    decreases |b|
  {
    if b == [] {
      assert m + b == m;
    } else {
      assert (m + b)[..|m + b| - 1] == m + b[..|b| - 1];
      TrimEndSkips(m, b[..|b| - 1]);
    }
  }

  /**
   * The reference characterisation of `trim`: surrounding `m` by trimmable
   * characters on either side and trimming gives back exactly `m`, whenever
   * `m` itself neither starts nor ends with one.
   */
  lemma TrimExact(a: string, m: string, b: string)
    requires AllTrimmable(a) && AllTrimmable(b)
    requires m == [] || (!Trimmable(m[0]) && !Trimmable(m[|m| - 1]))
    ensures Trim(a + m + b) == m
  {
    assert a + m + b == a + (m + b);
    if m == [] {
      assert m + b == b;
      assert AllTrimmable(a + b);
      TrimStartSkips(a + b, []);
      assert a + b + [] == a + b;
    } else {
      TrimStartSkips(a, m + b);
      TrimEndSkips(m, b);
    }
  }

  /** Trimming twice is trimming once. */
  lemma TrimIdempotent(s: string)
    ensures Trim(Trim(s)) == Trim(s)
  {
    TrimFixes(Trim(s));
  }

  /** A string that neither starts nor ends with a trimmable character is its own trim. */
  lemma TrimFixes(t: string)
    requires t == [] || (!Trimmable(t[0]) && !Trimmable(t[|t| - 1]))
    ensures Trim(t) == t
  {
    assert [] + t == t && t + [] == t;
    TrimStartSkips([], t);
    TrimEndSkips(t, []);
  }

  /** Trimming keeps a leading piece that starts and ends with a non-trimmable character. */
  lemma TrimKeepsPrefix(p: string, t: string)
    requires p != [] && !Trimmable(p[0]) && !Trimmable(p[|p| - 1])
    ensures StartsWith(Trim(p + t), p)
  {
    TrimStartSkips([], p + t);
    assert [] + (p + t) == p + t;
    TrimEndKeeps(p, t);
  }

  lemma {:induction false} TrimEndKeeps(p: string, t: string)
    requires p != [] && !Trimmable(p[|p| - 1])
    ensures TrimEnd(p + t) == p + TrimEnd(t)
    decreases |t|
  {
    if t == [] {
      assert p + t == p;
    } else if Trimmable(t[|t| - 1]) {
      assert (p + t)[..|p + t| - 1] == p + t[..|t| - 1];
      TrimEndKeeps(p, t[..|t| - 1]);
    }
  }

  /**
   * `Character.isWhitespace`: the Unicode space, line and paragraph
   * separators other than the three no-break spaces, and the controls
   * U+0009 to U+000D and U+001C to U+001F.
   */
  predicate IsWhitespace(c: char) {
    || ('\U{9}' <= c <= '\U{D}')
    || ('\U{1C}' <= c <= ' ')
    || c == '\U{1680}'
    || ('\U{2000}' <= c <= '\U{2006}')
    || ('\U{2008}' <= c <= '\U{200A}')
    || c == '\U{2028}' || c == '\U{2029}' || c == '\U{205F}' || c == '\U{3000}'
  }

  /** `s.isBlank()`: empty, or whitespace only. */
  predicate IsBlank(s: string) {
    forall i :: 0 <= i < |s| ==> IsWhitespace(s[i])
  }

  /**
   * `isBlank` and an empty `trim` disagree both ways: an em space is blank
   * but survives `trim`, and a NUL is trimmed away but is not blank.
   */
  lemma BlankIsNotTrimmedEmpty()
    ensures IsBlank("\U{2003}") && Trim("\U{2003}") != []
    ensures !IsBlank("\U{0}") && Trim("\U{0}") == []
  {
    assert !Trimmable("\U{2003}"[0]);
    assert AllTrimmable("\U{0}");
    assert !IsWhitespace("\U{0}"[0]);
  }

  /** `pat` occurs in `s` starting at position `i`. */
  predicate OccursAt(s: string, pat: string, i: nat) {
    i <= |s| && StartsWith(s[i..], pat)
  }

  /** Where `pat` occurs at `i`, the `k`th character of `s` after `i` is `pat[k]`. */
  lemma OccursAtChar(s: string, pat: string, i: nat, k: nat)
    requires OccursAt(s, pat, i) && k < |pat|
    ensures i + k < |s| && s[i + k] == pat[k]
  {
    assert s[i..][..|pat|][k] == pat[k];
  }

  /**
   * `s.replace(pat, "")`: scan left to right and delete every
   * non-overlapping occurrence of `pat`.
   */
  function RemoveAll(s: string, pat: string): (r: string)
    requires pat != []
    ensures |r| <= |s|
    decreases |s|
  {
    if s == [] then []
    else if StartsWith(s, pat) then RemoveAll(s[|pat|..], pat)
    else [s[0]] + RemoveAll(s[1..], pat)
  }

  /** Deleting a pattern that does not occur changes nothing. */
  lemma {:induction false} RemoveAllAbsent(s: string, pat: string)
    requires pat != []
    requires forall i: nat :: i < |s| ==> !OccursAt(s, pat, i)
    ensures RemoveAll(s, pat) == s
    decreases |s|
  {
    if s != [] {
      assert !OccursAt(s, pat, 0) && s[0..] == s;
      forall i: nat | i < |s[1..]| ensures !OccursAt(s[1..], pat, i) {
        assert !OccursAt(s, pat, i + 1) && s[1..][i..] == s[i + 1..];
      }
      RemoveAllAbsent(s[1..], pat);
    }
  }

  /**
   * A front part in which no occurrence of `pat` starts is kept as it is;
   * the deletion continues on the rest.
   */
  lemma {:induction false} RemoveAllAfter(a: string, t: string, pat: string)
    requires pat != []
    requires forall i: nat :: i < |a| ==> !OccursAt(a + t, pat, i)
    ensures RemoveAll(a + t, pat) == a + RemoveAll(t, pat)
    decreases |a|
  {
    if a != [] {
      var s := a + t;
      assert !OccursAt(s, pat, 0) && s[0..] == s;
      assert s[1..] == a[1..] + t;
      forall i: nat | i < |a[1..]| ensures !OccursAt(a[1..] + t, pat, i) {
        assert !OccursAt(s, pat, i + 1) && s[i + 1..] == (a[1..] + t)[i..];
      }
      RemoveAllAfter(a[1..], t, pat);
      assert s == [a[0]] + (a[1..] + t);
    } else {
      assert a + t == t;
    }
  }

  /** An occurrence of `pat` at the front is deleted, and the deletion continues after it. */
  lemma RemoveAllFront(pat: string, t: string)
    requires pat != []
    ensures RemoveAll(pat + t, pat) == RemoveAll(t, pat)
  {
    assert StartsWith(pat + t, pat) by { assert (pat + t)[..|pat|] == pat; }
    assert (pat + t)[|pat|..] == t;
  }
}
