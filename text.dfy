/**
 * String helpers with the meaning Python's `str` methods give them,
 * restricted to ASCII: `strip`, `lower`, `replace`, `startswith`, `in`.
 */
module Text {

  /** `str.isspace` on one ASCII character: tab, line feed, vertical tab,
      form feed, carriage return, the four separators 0x1C-0x1F and space. */
  predicate IsSpace(c: char)
  {
    9 <= c as int <= 13 || 28 <= c as int <= 32
  }

  predicate AllSpace(s: string)
  {
    forall k :: 0 <= k < |s| ==> IsSpace(s[k])
  }

  /** `w` occurs in `s` starting at index `i`. */
  predicate OccursAt<T(==)>(s: seq<T>, i: int, w: seq<T>)
  {
    0 <= i && i + |w| <= |s| && s[i..i + |w|] == w
  }

  /** An occurrence inside a slice is an occurrence in the whole sequence. */
  lemma OccursInSlice<T>(s: seq<T>, lo: int, hi: int, k: int, w: seq<T>)
    requires 0 <= lo <= hi <= |s| && OccursAt(s[lo..hi], k, w)
    ensures OccursAt(s, lo + k, w)
  {
    var u, v := s[lo..hi][k..k + |w|], s[lo + k..lo + k + |w|];
    assert |u| == |v|;
    forall m | 0 <= m < |u| ensures u[m] == v[m] {
      assert u[m] == s[lo + k + m] == v[m];
    }
    assert u == v;
  }

  predicate StartsWith<T(==)>(s: seq<T>, prefix: seq<T>)
  {
    OccursAt(s, 0, prefix)
  }

  /** Python's `w in s` for strings and bytes. */
  function Contains<T(==)>(s: seq<T>, w: seq<T>): (b: bool)
    decreases |s|
    ensures b <==> exists i :: OccursAt(s, i, w)
  {
    if |s| < |w| then false
    else if s[..|w|] == w then (assert OccursAt(s, 0, w); true)
    else
      var rest := Contains(s[1..], w);
      OccursShift(s, w);
      rest
  }

  /** An occurrence in `s` other than at 0 is an occurrence in `s[1..]`. */
  lemma OccursShift<T>(s: seq<T>, w: seq<T>)
    requires s != [] && !OccursAt(s, 0, w)
    ensures (exists i :: OccursAt(s, i, w)) <==> (exists i :: OccursAt(s[1..], i, w))
  {
    if i :| OccursAt(s, i, w) {
      assert i >= 1;
      assert s[1..][i - 1..i - 1 + |w|] == s[i..i + |w|];
      assert OccursAt(s[1..], i - 1, w);
    }
    if i :| OccursAt(s[1..], i, w) {
      assert s[i + 1..i + 1 + |w|] == s[1..][i..i + |w|];
      assert OccursAt(s, i + 1, w);
    }
  }

  /** `str.lstrip()`: drops the leading whitespace. */
  function TrimStart(s: string): (r: string)
    ensures |r| <= |s|
    ensures r == [] || !IsSpace(r[0])
  {
    if s != [] && IsSpace(s[0]) then TrimStart(s[1..]) else s
  }

  /** What `lstrip` keeps is a suffix, and all it drops is whitespace. */
  lemma {:induction false} TrimStartSuffix(s: string)
    ensures var r := TrimStart(s);
      r == s[|s| - |r|..] && forall k :: 0 <= k < |s| - |r| ==> IsSpace(s[k])
  {
    if s != [] && IsSpace(s[0]) {
      TrimStartSuffix(s[1..]);
      var r := TrimStart(s);
      forall k | 0 <= k < |s| - |r| ensures IsSpace(s[k]) {
        if k > 0 {
          assert s[k] == s[1..][k - 1];
        }
      }
    }
  }

  /** `str.rstrip()`: drops the trailing whitespace. */
  function TrimEnd(s: string): (r: string)
    ensures |r| <= |s|
    ensures r == [] || !IsSpace(r[|r| - 1])
  {
    if s != [] && IsSpace(s[|s| - 1]) then TrimEnd(s[..|s| - 1]) else s
  }

  /** What `rstrip` keeps is a prefix, and all it drops is whitespace. */
  lemma {:induction false} TrimEndPrefix(s: string)
    ensures var r := TrimEnd(s);
      r == s[..|r|] && forall k :: |r| <= k < |s| ==> IsSpace(s[k])
  {
    if s != [] && IsSpace(s[|s| - 1]) {
      TrimEndPrefix(s[..|s| - 1]);
      var r := TrimEnd(s);
      forall k | |r| <= k < |s| ensures IsSpace(s[k]) {
        if k < |s| - 1 {
          assert s[k] == s[..|s| - 1][k];
        }
      }
    }
  }

  /** `str.strip()`: drops the whitespace at both ends. */
  function Strip(s: string): (r: string)
    ensures |r| <= |s|
    ensures r == [] || (!IsSpace(r[0]) && !IsSpace(r[|r| - 1]))
  {
    var l := TrimStart(s);
    TrimEndPrefix(l);
    TrimEnd(l)
  }

  /** The stripped text is empty exactly when the text is all whitespace. */
  lemma StripEmpty(s: string)
    ensures Strip(s) == [] <==> AllSpace(s)
  {
    var l := TrimStart(s);
    TrimStartSuffix(s);
    TrimEndPrefix(l);
    if Strip(s) == [] {
      assert l == [];
    }
  }

  /** Text that neither starts nor ends with whitespace is its own strip. */
  lemma StripUnchanged(s: string)
    requires s == [] || (!IsSpace(s[0]) && !IsSpace(s[|s| - 1]))
    ensures Strip(s) == s
  {
  }

  /** Whitespace padding on both sides of a text is exactly what strip removes. */
  lemma StripPadded(a: string, s: string, b: string)
    requires AllSpace(a) && AllSpace(b)
    requires s != [] && !IsSpace(s[0]) && !IsSpace(s[|s| - 1])
    ensures Strip(a + s + b) == s
  {
    assert a + s + b == a + (s + b);
    TrimStartSpaces(a, s + b);
    TrimEndSpaces(s, b);
  }

  lemma {:induction false} TrimStartSpaces(a: string, t: string)
    requires AllSpace(a) && (t == [] || !IsSpace(t[0]))
    ensures TrimStart(a + t) == t
  {
    if a == [] {
      assert a + t == t;
    } else {
      assert (a + t)[1..] == a[1..] + t;
      TrimStartSpaces(a[1..], t);
    }
  }

  lemma {:induction false} TrimEndSpaces(t: string, b: string)
    requires AllSpace(b) && (t == [] || !IsSpace(t[|t| - 1]))
    ensures TrimEnd(t + b) == t
  {
    if b == [] {
      assert t + b == t;
    } else {
      assert (t + b)[..|t + b| - 1] == t + b[..|b| - 1];
      TrimEndSpaces(t, b[..|b| - 1]);
    }
  }

  /** What strip keeps is one contiguous piece of the text. */
  lemma StripIsInfix(s: string)
    ensures IsInfix(Strip(s), s)
  {
    var l := TrimStart(s);
    var r := TrimEnd(l);
    TrimStartSuffix(s);
    TrimEndPrefix(l);
    assert s[|s| - |l|..][..|r|] == s[|s| - |l|..|s| - |l| + |r|];
    assert OccursAt(s, |s| - |l|, r);
  }

  /** `r` is a contiguous piece of `s`. */
  ghost predicate IsInfix(r: string, s: string)
  {
    exists i :: OccursAt(s, i, r)
  }

  function LowerChar(c: char): char
  {
    if 'A' <= c <= 'Z' then (c as int + 32) as char else c
  }

  /** `str.lower()` on ASCII: upper-case letters become lower-case, every other
      character is kept. */
  function Lower(s: string): (r: string)
    ensures |r| == |s|
    ensures forall k :: 0 <= k < |s| ==> r[k] == LowerChar(s[k])
  {
    seq(|s|, k requires 0 <= k < |s| => LowerChar(s[k]))
  }

  /** Lowercasing twice is lowercasing once. */
  lemma LowerIdempotent(s: string)
    ensures Lower(Lower(s)) == Lower(s)
  {
  }

  /** Lowercasing commutes with strip: it never turns a blank into a
      non-blank or back. */
  lemma StripLower(s: string)
    ensures Strip(Lower(s)) == Lower(Strip(s))
  {
    TrimStartLower(s);
    TrimEndLower(TrimStart(s));
  }

  lemma {:induction false} TrimStartLower(s: string)
    ensures TrimStart(Lower(s)) == Lower(TrimStart(s))
  {
    if s != [] {
      assert Lower(s)[1..] == Lower(s[1..]);
      TrimStartLower(s[1..]);
    }
  }

  lemma {:induction false} TrimEndLower(s: string)
    ensures TrimEnd(Lower(s)) == Lower(TrimEnd(s))
  {
    if s != [] {
      assert Lower(s)[..|s| - 1] == Lower(s[..|s| - 1]);
      TrimEndLower(s[..|s| - 1]);
    }
  }

  /** `s.replace(a, b)` for one-character `a` and `b`. */
  function ReplaceChar(s: string, a: char, b: char): (r: string)
    ensures |r| == |s|
    ensures forall k :: 0 <= k < |s| ==> r[k] == (if s[k] == a then b else s[k])
  {
    seq(|s|, k requires 0 <= k < |s| => if s[k] == a then b else s[k])
  }

  /** `s.replace(pat, rep)`: every non-overlapping occurrence of `pat`, found
      left to right, is replaced by `rep`. */
  function ReplaceAll(s: string, pat: string, rep: string): string
    requires pat != []
    decreases |s|
  {
    if |s| < |pat| then s
    else if s[..|pat|] == pat then rep + ReplaceAll(s[|pat|..], pat, rep)
    else [s[0]] + ReplaceAll(s[1..], pat, rep)
  }

  /** A leading occurrence is replaced. */
  lemma ReplaceAllPrefix(pat: string, rest: string, rep: string)
    requires pat != []
    ensures ReplaceAll(pat + rest, pat, rep) == rep + ReplaceAll(rest, pat, rep)
  {
    var s := pat + rest;
    assert s[..|pat|] == pat;
    assert s[|pat|..] == rest;
  }

  /** Replacing a pattern that does not occur changes nothing. */
  lemma {:induction false} ReplaceAllAbsent(s: string, pat: string, rep: string)
    requires pat != [] && !Contains(s, pat)
    ensures ReplaceAll(s, pat, rep) == s
    decreases |s|
  {
    if |s| >= |pat| {
      assert !OccursAt(s, 0, pat);
      OccursShift(s, pat);
      ReplaceAllAbsent(s[1..], pat, rep);
      assert [s[0]] + s[1..] == s;
    }
  }

  /** Removing a pattern that occurs only at the front leaves the rest. */
  lemma RemoveLeading(pat: string, rest: string)
    requires pat != [] && !Contains(rest, pat)
    ensures ReplaceAll(pat + rest, pat, "") == rest
  {
    ReplaceAllPrefix(pat, rest, "");
    ReplaceAllAbsent(rest, pat, "");
    assert "" + rest == rest;
  }

  /** `"".join(parts)`. */
  function Concat(parts: seq<string>): string
  {
    if parts == [] then [] else Concat(parts[..|parts| - 1]) + parts[|parts| - 1]
  }

  /** `a` can be obtained from `b` by deleting characters: every character of
      `a` occurs in `b`, in the same order. */
  predicate IsSubsequence(a: string, b: string)
    decreases |b|
  {
    a == [] || (b != [] && if a[0] == b[0] then IsSubsequence(a[1..], b[1..]) else IsSubsequence(a, b[1..]))
  }

  lemma {:induction false} SubsequencePrepend(a: string, x: char, b: string)
    requires IsSubsequence(a, b)
    ensures IsSubsequence(a, [x] + b)
    decreases |b|, 1
  {
    assert ([x] + b)[1..] == b;
    if a != [] && a[0] == x {
      SubsequenceDropHead(a, b);
    }
  }

  lemma {:induction false} SubsequenceDropHead(a: string, b: string)
    requires a != [] && IsSubsequence(a, b)
    ensures IsSubsequence(a[1..], b)
    decreases |b|, 0
  {
    assert [b[0]] + b[1..] == b;
    if a[0] != b[0] {
      SubsequenceDropHead(a, b[1..]);
    }
    SubsequencePrepend(a[1..], b[0], b[1..]);
  }

  lemma {:induction false} SubsequenceOfLonger(a: string, c: string, b: string)
    requires IsSubsequence(a, b)
    ensures IsSubsequence(a, c + b)
    decreases |c|
  {
    if c == [] {
      assert c + b == b;
    } else {
      SubsequenceOfLonger(a, c[1..], b);
      SubsequencePrepend(a, c[0], c[1..] + b);
      assert [c[0]] + (c[1..] + b) == c + b;
    }
  }

  lemma {:induction false} SubsequenceTransitive(a: string, b: string, c: string)
    requires IsSubsequence(a, b) && IsSubsequence(b, c)
    ensures IsSubsequence(a, c)
    decreases |c|
  {
    if a != [] {
      assert [c[0]] + c[1..] == c;
      if b[0] == c[0] {
        if a[0] == b[0] {
          SubsequenceTransitive(a[1..], b[1..], c[1..]);
        } else {
          SubsequenceTransitive(a, b[1..], c[1..]);
          SubsequencePrepend(a, c[0], c[1..]);
        }
      } else {
        SubsequenceTransitive(a, b, c[1..]);
        SubsequencePrepend(a, c[0], c[1..]);
      }
    }
  }

  lemma {:induction false} InfixIsSubsequence(r: string, s: string)
    requires IsInfix(r, s)
    ensures IsSubsequence(r, s)
  {
    var i :| OccursAt(s, i, r);
    SelfSubsequence(r);
    AppendKeepsSubsequence(r, s[i..i + |r|], s[i + |r|..]);
    assert s[i..i + |r|] + s[i + |r|..] == s[i..];
    SubsequenceOfLonger(r, s[..i], s[i..]);
    assert s[..i] + s[i..] == s;
  }

  lemma {:induction false} SelfSubsequence(a: string)
    ensures IsSubsequence(a, a)
    decreases |a|
  {
    if a != [] { SelfSubsequence(a[1..]); }
  }

  lemma {:induction false} AppendKeepsSubsequence(a: string, b: string, c: string)
    requires IsSubsequence(a, b)
    ensures IsSubsequence(a, b + c)
    decreases |b|
  {
    if a != [] {
      assert (b + c)[1..] == b[1..] + c;
      if a[0] == b[0] {
        AppendKeepsSubsequence(a[1..], b[1..], c);
      } else {
        AppendKeepsSubsequence(a, b[1..], c);
      }
    }
  }

  /** Python's `str(n)` for a natural number: its decimal digits, most
      significant first. */
  function NatToString(n: nat): (r: string)
    ensures r != []
    ensures forall k :: 0 <= k < |r| ==> '0' <= r[k] <= '9'
  {
    if n < 10 then [('0' as int + n) as char]
    else NatToString(n / 10) + [('0' as int + n % 10) as char]
  }

  /** The number a string of decimal digits denotes. */
  function DecimalValue(s: string): nat
    requires forall k :: 0 <= k < |s| ==> '0' <= s[k] <= '9'
  {
    if s == [] then 0 else DecimalValue(s[..|s| - 1]) * 10 + (s[|s| - 1] as int - '0' as int)
  }

  /** `str(n)` reads back as `n`. */
  lemma {:induction false} NatToStringRoundTrip(n: nat)
    ensures DecimalValue(NatToString(n)) == n
  {
    if n >= 10 {
      NatToStringRoundTrip(n / 10);
      var r := NatToString(n);
      assert r[..|r| - 1] == NatToString(n / 10);
    }
  }
}
