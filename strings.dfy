/**
 * The Python string operations the bot relies on, over `string` (= seq<char>):
 * `str.startswith`, the `in` operator on strings, `str.replace` and `str.strip`.
 */
module Strings {

  /** `s.startswith(p)`. */
  predicate StartsWith(s: string, p: string) {
    |p| <= |s| && s[..|p|] == p
  }

  /** `t` occurs in `s` at position `k`. */
  predicate OccursAt(s: string, t: string, k: int) {
    0 <= k <= |s| - |t| && s[k..k + |t|] == t
  }

  /** `t in s`, scanning `s` from the left. */
  predicate Contains(s: string, t: string)
    decreases |s|
  {
    StartsWith(s, t) || (|s| > 0 && Contains(s[1..], t))
  }

  /** The scan finds `t` exactly when `t` occurs at some position of `s`. */
  lemma {:induction false} ContainsIff(s: string, t: string)
    ensures Contains(s, t) <==> exists k :: OccursAt(s, t, k)
  {
    if StartsWith(s, t) {
      assert OccursAt(s, t, 0);
    } else if |s| > 0 {
      ContainsIff(s[1..], t);
      if Contains(s[1..], t) {
        var k :| OccursAt(s[1..], t, k);
        assert s[k + 1..k + 1 + |t|] == s[1..][k..k + |t|];
        assert OccursAt(s, t, k + 1);
      } else {
        forall k | 0 < k <= |s| - |t| ensures OccursAt(s, t, k) ==> OccursAt(s[1..], t, k - 1) {
          assert s[1..][k - 1..k - 1 + |t|] == s[k..k + |t|];
        }
      }
    }
  }

  /** A string that occurs at some position is contained. */
  lemma ContainedAt(s: string, t: string, k: int)
    requires OccursAt(s, t, k)
    ensures Contains(s, t)
  {
    ContainsIff(s, t);
  }

  /** A string that occurs at no position is not contained. */
  lemma NotContained(s: string, t: string)
    requires forall k :: 0 <= k <= |s| - |t| ==> !OccursAt(s, t, k)
    ensures !Contains(s, t)
  {
    ContainsIff(s, t);
  }

  /** Only a string no longer than `s` can occur in `s`. */
  lemma {:induction false} ContainsLength(s: string, t: string)
    requires Contains(s, t)
    ensures |t| <= |s|
  {
    if !StartsWith(s, t) {
      ContainsLength(s[1..], t);
    }
  }

  /** A string contained in `s` is contained in `a + s`. */
  lemma {:induction false} ContainsAfter(a: string, s: string, t: string)
    requires Contains(s, t)
    ensures Contains(a + s, t)
  {
    if a != [] {
      ContainsAfter(a[1..], s, t);
      assert (a + s)[1..] == a[1..] + s;
    } else {
      assert a + s == s;
    }
  }

  /** `b` is contained in `a + b + c`, right after `a`. */
  lemma ContainsMiddle(a: string, b: string, c: string)
    ensures Contains(a + b + c, b)
  {
    var w := a + b + c;
    assert w[|a|..|a| + |b|] == b;
    ContainedAt(w, b, |a|);
  }

  /**
   * `s.replace(pat, rep)` for a non-empty `pat`: scanning from the left, every
   * occurrence of `pat` that does not overlap an earlier replaced one becomes `rep`.
   */
  function ReplaceAll(s: string, pat: string, rep: string): string
    requires pat != []
    decreases |s|
  {
    if |s| < |pat| then s
    else if s[..|pat|] == pat then rep + ReplaceAll(s[|pat|..], pat, rep)
    else [s[0]] + ReplaceAll(s[1..], pat, rep)
  }

  /** Replacing a pattern that does not occur leaves the string unchanged. */
  lemma {:induction false} ReplaceAllAbsent(s: string, pat: string, rep: string)
    requires pat != [] && !Contains(s, pat)
    ensures ReplaceAll(s, pat, rep) == s
  {
    if |s| >= |pat| {
      assert s[..|pat|] != pat;
      ReplaceAllAbsent(s[1..], pat, rep);
      assert [s[0]] + s[1..] == s;
    }
  }

  /** Replacing a pattern that occurs leaves the replacement in the result. */
  lemma {:induction false} ReplaceAllFound(s: string, pat: string, rep: string)
    requires pat != [] && Contains(s, pat)
    ensures Contains(ReplaceAll(s, pat, rep), rep)
  {
    ContainsLength(s, pat);
    if s[..|pat|] == pat {
      assert (rep + ReplaceAll(s[|pat|..], pat, rep))[..|rep|] == rep;
    } else {
      assert !StartsWith(s, pat);
      ReplaceAllFound(s[1..], pat, rep);
      ContainsAfter([s[0]], ReplaceAll(s[1..], pat, rep), rep);
    }
  }

  /** An occurrence in a suffix is an occurrence in the whole string, shifted by the cut. */
  lemma OccursShift(s: string, t: string, a: nat, j: nat)
    requires a <= |s|
    ensures OccursAt(s[a..], t, j) <==> OccursAt(s, t, a + j)
  {
    if j <= |s| - a - |t| {
      assert s[a..][j..j + |t|] == s[a + j..a + j + |t|];
    }
  }

  /** Where no occurrence of `pat` starts among the first `n` characters, those are copied unchanged. */
  lemma {:induction false} ReplaceAllCopies(s: string, pat: string, rep: string, n: nat)
    requires pat != [] && n <= |s|
    requires forall j :: 0 <= j < n ==> !OccursAt(s, pat, j)
    ensures ReplaceAll(s, pat, rep) == s[..n] + ReplaceAll(s[n..], pat, rep)
  {
    if n == 0 {
      assert s[n..] == s;
    } else if |s| < |pat| {
      assert s[..n] + s[n..] == s;
    } else {
      assert !OccursAt(s, pat, 0);
      var r := s[1..];
      forall j | 0 <= j < n - 1 ensures !OccursAt(r, pat, j) {
        OccursShift(s, pat, 1, j);
      }
      ReplaceAllCopies(r, pat, rep, n - 1);
      assert r[n - 1..] == s[n..];
      assert r[..n - 1] == s[1..n];
      assert s[..n] == [s[0]] + s[1..n];
      assert ReplaceAll(s, pat, rep) == [s[0]] + ReplaceAll(r, pat, rep);
    }
  }

  /** An occurrence of `t` that no occurrence of `pat` overlaps survives the replacement. */
  lemma {:induction false} ReplaceAllKeeps(s: string, pat: string, rep: string, t: string, k: nat)
    requires pat != [] && OccursAt(s, t, k)
    requires forall j :: OccursAt(s, pat, j) ==> j + |pat| <= k || k + |t| <= j
    ensures Contains(ReplaceAll(s, pat, rep), t)
    decreases k
  {
    if k == 0 {
      ReplaceAllCopies(s, pat, rep, |t|);
      var out := ReplaceAll(s, pat, rep);
      assert out[..|t|] == t;
      ContainedAt(out, t, 0);
    } else if |s| < |pat| {
      ContainedAt(s, t, k);
    } else if s[..|pat|] == pat {
      assert OccursAt(s, pat, 0);
      var r := s[|pat|..];
      forall j | OccursAt(r, pat, j) ensures j + |pat| <= k - |pat| || k - |pat| + |t| <= j {
        OccursShift(s, pat, |pat|, j);
      }
      OccursShift(s, t, |pat|, k - |pat|);
      ReplaceAllKeeps(r, pat, rep, t, k - |pat|);
      ContainsAfter(rep, ReplaceAll(r, pat, rep), t);
    } else {
      var r := s[1..];
      forall j | OccursAt(r, pat, j) ensures j + |pat| <= k - 1 || k - 1 + |t| <= j {
        OccursShift(s, pat, 1, j);
      }
      OccursShift(s, t, 1, k - 1);
      ReplaceAllKeeps(r, pat, rep, t, k - 1);
      ContainsAfter([s[0]], ReplaceAll(r, pat, rep), t);
    }
  }

  /** No character of `x` occurs in `y`. */
  predicate Disjoint(x: string, y: string) {
    forall i :: 0 <= i < |x| ==> x[i] !in y
  }

  /** An occurrence of `p` covering the first character of an occurrence of `t` holds that character. */
  lemma CoversStart(s: string, t: string, k: int, p: string, j: int)
    requires t != [] && OccursAt(s, t, k) && OccursAt(s, p, j) && j <= k < j + |p|
    ensures t[0] in p
  {
    assert s[k] == s[k..k + |t|][0] == t[0];
    assert s[k] == s[j..j + |p|][k - j];
  }

  /** An occurrence of `p` covering the last character of an occurrence of `t` holds that character. */
  lemma CoversEnd(s: string, t: string, k: int, p: string, j: int)
    requires t != [] && OccursAt(s, t, k) && OccursAt(s, p, j) && j <= k + |t| - 1 < j + |p|
    ensures t[|t| - 1] in p
  {
    var e := k + |t| - 1;
    assert s[e] == s[k..k + |t|][|t| - 1] == t[|t| - 1];
    assert s[e] == s[j..j + |p|][e - j];
  }

  /** An occurrence of `p` inside an occurrence of `t` is an occurrence in `t`. */
  lemma OccursInside(s: string, t: string, k: int, p: string, j: int)
    requires OccursAt(s, t, k) && OccursAt(s, p, j) && k <= j && j + |p| <= k + |t|
    ensures Contains(t, p)
  {
    forall d | 0 <= d < |p| ensures t[j - k + d] == p[d] {
      assert t[j - k + d] == s[k..k + |t|][j - k + d] == s[j + d];
      assert s[j + d] == s[j..j + |p|][d];
    }
    assert t[j - k..j - k + |p|] == p;
    ContainedAt(t, p, j - k);
  }

  /**
   * An occurrence of `p` cannot overlap an occurrence of `t` that does not
   * contain `p` and whose end characters are not in `p`: it would lie inside
   * `t`, or cover one of those end characters.
   */
  lemma NoStraddle(s: string, t: string, k: int, p: string, j: int)
    requires t != [] && t[0] !in p && t[|t| - 1] !in p && !Contains(t, p)
    requires OccursAt(s, t, k) && OccursAt(s, p, j)
    ensures j + |p| <= k || k + |t| <= j
  {
    if j + |p| > k && k + |t| > j {
      if j <= k {
        CoversStart(s, t, k, p, j);
      } else if j + |p| <= k + |t| {
        OccursInside(s, t, k, p, j);
      } else {
        CoversEnd(s, t, k, p, j);
      }
      assert false;
    }
  }

  /**
   * An occurrence of `p` whose end characters are not in `t` and which does
   * not contain `t` cannot overlap an occurrence of `t`: it would end or begin
   * inside `t`, or hold all of it.
   */
  lemma NoStraddleAround(s: string, t: string, k: int, p: string, j: int)
    requires p != [] && p[0] !in t && p[|p| - 1] !in t && !Contains(p, t)
    requires OccursAt(s, t, k) && OccursAt(s, p, j)
    ensures j + |p| <= k || k + |t| <= j
  {
    if j + |p| > k && k + |t| > j {
      if k <= j {
        CoversStart(s, p, j, t, k);
      } else if k + |t| <= j + |p| {
        OccursInside(s, p, j, t, k);
      } else {
        CoversEnd(s, p, j, t, k);
      }
      assert false;
    }
  }

  /** A string whose first character does not occur in `s` is not contained in `s`. */
  lemma {:induction false} NotContainedFirst(s: string, t: string)
    requires t != [] && t[0] !in s
    ensures !Contains(s, t)
  {
    if |s| > 0 {
      NotContainedFirst(s[1..], t);
    }
  }

  /**
   * A prefix of the result that holds no character of `rep` was copied
   * unchanged from the input.
   */
  lemma {:induction false} ReplaceAllKeepsPrefix(s: string, pat: string, rep: string, n: nat)
    requires pat != [] && rep != []
    requires n <= |ReplaceAll(s, pat, rep)|
    requires Disjoint(ReplaceAll(s, pat, rep)[..n], rep)
    ensures n <= |s| && s[..n] == ReplaceAll(s, pat, rep)[..n]
  {
    var out := ReplaceAll(s, pat, rep);
    if n > 0 {
      assert out[..n][0] !in rep;
    }
    if n == 0 || |s| < |pat| {
    } else if s[..|pat|] == pat {
    } else {
      var rest := ReplaceAll(s[1..], pat, rep);
      assert out == [s[0]] + rest;
      assert rest[..n - 1] == out[..n][1..];
      ReplaceAllKeepsPrefix(s[1..], pat, rep, n - 1);
      assert s[..n] == [s[0]] + s[1..][..n - 1];
    }
  }

  /** A string made of characters outside `pat` cannot start an occurrence of `pat`. */
  lemma {:induction false} NoMatchThrough(x: string, r: string, pat: string)
    requires pat != [] && Disjoint(x, pat) && !Contains(r, pat)
    ensures !Contains(x + r, pat)
  {
    if x != [] {
      assert (x + r)[0] == x[0];
      assert !StartsWith(x + r, pat);
      NoMatchThrough(x[1..], r, pat);
      assert (x + r)[1..] == x[1..] + r;
    } else {
      assert x + r == r;
    }
  }

  /**
   * When the replacement is non-empty and shares no character with the pattern,
   * no occurrence of the pattern survives the replacement.
   */
  lemma {:induction false} ReplaceAllRemoves(s: string, pat: string, rep: string)
    requires pat != [] && rep != [] && Disjoint(rep, pat)
    ensures !Contains(ReplaceAll(s, pat, rep), pat)
  {
    var out := ReplaceAll(s, pat, rep);
    if |s| < |pat| {
      if Contains(s, pat) {
        ContainsLength(s, pat);
      }
    } else if s[..|pat|] == pat {
      ReplaceAllRemoves(s[|pat|..], pat, rep);
      NoMatchThrough(rep, ReplaceAll(s[|pat|..], pat, rep), pat);
    } else {
      var rest := ReplaceAll(s[1..], pat, rep);
      ReplaceAllRemoves(s[1..], pat, rep);
      assert out == [s[0]] + rest;
      assert out[1..] == rest;
      if StartsWith(out, pat) {
        assert out[..|pat|] == pat;
        assert Disjoint(out[..|pat|], rep);
        ReplaceAllKeepsPrefix(s, pat, rep, |pat|);
        assert false;
      }
    }
  }

  /** The characters Python's `str.isspace` accepts. */
  predicate IsSpace(c: char) {
    c == ' ' || ('\t' <= c <= '\r') || ('\U{1C}' <= c <= '\U{1F}')
    || c == '\U{85}' || c == '\U{A0}' || c == '\U{1680}'
    || ('\U{2000}' <= c <= '\U{200A}') || c == '\U{2028}' || c == '\U{2029}'
    || c == '\U{202F}' || c == '\U{205F}' || c == '\U{3000}'
  }

  /** Every character of `s` is whitespace. */
  predicate AllSpace(s: string) {
    forall k :: 0 <= k < |s| ==> IsSpace(s[k])
  }

  /** How many whitespace characters `s` begins with. */
  function LeadingSpaces(s: string): (n: nat)
    ensures n <= |s| && AllSpace(s[..n])
    ensures n == |s| || !IsSpace(s[n])
  {
    if s != [] && IsSpace(s[0]) then
      1 + LeadingSpaces(s[1..])
    else 0
  }

  /** The length of `s` once its trailing whitespace is dropped. */
  function TrailingStart(s: string): (n: nat)
    ensures n <= |s| && AllSpace(s[n..])
    ensures n == 0 || !IsSpace(s[n - 1])
  {
    if s != [] && IsSpace(s[|s| - 1]) then
      TrailingStart(s[..|s| - 1])
    else |s|
  }

  /** `s.lstrip()`: drops the leading whitespace and nothing else. */
  function TrimLeft(s: string): (r: string)
    ensures |r| <= |s| && r == s[|s| - |r|..]
    ensures AllSpace(s[..|s| - |r|])
    ensures r == [] || !IsSpace(r[0])
  {
    s[LeadingSpaces(s)..]
  }

  /** `s.rstrip()`: drops the trailing whitespace and nothing else. */
  function TrimRight(s: string): (r: string)
    ensures |r| <= |s| && r == s[..|r|]
    ensures AllSpace(s[|r|..])
    ensures r == [] || !IsSpace(r[|r| - 1])
  {
    s[..TrailingStart(s)]
  }

  /** `s.strip()`. */
  function Strip(s: string): string {
    TrimRight(TrimLeft(s))
  }

  /**
   * `Strip(s)` is the slice of `s` between a whitespace-only head and a
   * whitespace-only tail, and begins and ends with a non-space character.
   */
  lemma StripSpec(s: string)
    ensures exists i :: OccursAt(s, Strip(s), i) && AllSpace(s[..i]) && AllSpace(s[i + |Strip(s)|..])
    ensures Strip(s) == [] || (!IsSpace(Strip(s)[0]) && !IsSpace(Strip(s)[|Strip(s)| - 1]))
  {
    var i := LeadingSpaces(s);
    var l := s[i..];
    var m := TrailingStart(l);
    var r := l[..m];
    assert r == s[i..i + m];
    assert l[m..] == s[i + m..];
    if r != [] {
      assert r[0] == l[0];
    }
    assert OccursAt(s, r, i) && AllSpace(s[..i]) && AllSpace(s[i + |r|..]);
  }

  /** A string strips to nothing exactly when it is all whitespace. */
  lemma StripEmptyIff(s: string)
    ensures Strip(s) == [] <==> forall i :: 0 <= i < |s| ==> IsSpace(s[i])
  {
    var l := TrimLeft(s);
    if l != [] {
      assert !IsSpace(s[|s| - |l|]);
      assert TrimRight(l) != [];
    }
  }

  /** Stripping twice strips nothing more. */
  lemma StripIdempotent(s: string)
    ensures Strip(Strip(s)) == Strip(s)
  {
    var r := Strip(s);
    if r != [] {
      assert TrimLeft(r) == r;
      assert TrimRight(r) == r;
    }
  }
}
