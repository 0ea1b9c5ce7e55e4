/**
 * The substitution both emotion-capable adapters perform with
 * `re.sub(r"<tag>(.*?)</tag>", repl, text)`.
 *
 * The regular expression is read the way Python's engine runs it: the scan
 * goes left to right and takes the leftmost match; the lazy group `(.*?)`
 * captures the shortest body that is followed by `</tag>`; `.` does not match
 * a line feed, so a body never holds one and a `<tag>` with no `</tag>` before
 * the next line feed does not match at all; and the replacement text is not
 * scanned again.  `Scan` splits a text into literal characters and matched
 * spans, `Render` replaces the spans, and `Sub` is the two together.
 */
module EmotionTags {
  import opened Wrappers
  import opened Text

  const Open: string := "<tag>"
  const Close: string := "</tag>"

  /** The vocabulary both adapters know: the keys of their `EMOTION_MAP`. */
  const KnownLabels: set<string> := {"laughter", "angry", "excited", "happy", "sad", "surprised", "scared", "calm"}

  /** `match.group(1).strip().lower()`. */
  function NormalizeLabel(body: string): string
  {
    Lower(Strip(body))
  }

  /** Labels that differ only in letter case read the same. */
  lemma LabelIgnoresCase(b1: string, b2: string)
    requires Lower(b1) == Lower(b2)
    ensures NormalizeLabel(b1) == NormalizeLabel(b2)
  {
    StripLower(b1);
    StripLower(b2);
  }

  /** Blanks around a label are ignored, and a label is read in lower case. */
  lemma LabelIgnoresPadding(a: string, b: string, c: string)
    requires AllSpace(a) && AllSpace(c)
    requires b != [] && !IsSpace(b[0]) && !IsSpace(b[|b| - 1])
    ensures NormalizeLabel(a + b + c) == NormalizeLabel(b) == Lower(b)
  {
    StripPadded(a, b, c);
    StripUnchanged(b);
  }

  /** A normalized label is lower-case and has no blanks at its ends. */
  lemma NormalizedLabelIsCanonical(b: string)
    ensures NormalizeLabel(NormalizeLabel(b)) == NormalizeLabel(b)
  {
    var s := Strip(b);
    StripLower(s);
    assert Strip(s) == s by { StripUnchanged(s); }
    LowerIdempotent(s);
  }

  /** One literal character of the input, or one matched `<tag>BODY</tag>` span. */
  datatype Piece = Plain(c: char) | Tagged(body: string)

  /** `b` is a body the lazy group captures when `</tag>` follows it: it holds no
      line feed, and the first `</tag>` in `b + "</tag>"` is the appended one. */
  predicate ValidBody(b: string)
  {
    forall k :: 0 <= k < |b| ==> b[k] != '\n' && !OccursAt(b + Close, k, Close)
  }

  /** No line feed in `s[from..to]`. */
  predicate NoLineFeed(s: string, from: int, to: int)
  {
    forall i :: from <= i < to && 0 <= i < |s| ==> s[i] != '\n'
  }

  /** The first `</tag>` at or after `k` that is reached without crossing a line feed. */
  function FindClose(s: string, k: nat): (r: Option<nat>)
    requires k <= |s|
    decreases |s| - k
    ensures r.Some? ==> k <= r.value && OccursAt(s, r.value, Close)
    ensures r.Some? ==> forall i :: k <= i < r.value ==> s[i] != '\n' && !OccursAt(s, i, Close)
  {
    if |s| - k < |Close| then None
    else if s[k..k + |Close|] == Close then Some(k)
    else if s[k] == '\n' then None
    else FindClose(s, k + 1)
  }

  /** Where `<tag>(.*?)</tag>` matches at the start of `s`: the index of the
      closing `</tag>`, so that the body is `s[5..j]`. */
  function MatchAt(s: string): (r: Option<nat>)
    ensures r.Some? ==> |Open| <= r.value && r.value + |Close| <= |s|
    ensures r.Some? ==> OccursAt(s, 0, Open) && OccursAt(s, r.value, Close)
    ensures r.Some? ==> ValidBody(s[|Open|..r.value])
  {
    if OccursAt(s, 0, Open) then
      var r := FindClose(s, |Open|);
      if r.Some? then BodyIsValid(s, r.value); r else r
    else None
  }

  lemma BodyIsValid(s: string, j: nat)
    requires |Open| <= j && OccursAt(s, j, Close)
    requires forall i :: |Open| <= i < j ==> s[i] != '\n' && !OccursAt(s, i, Close)
    ensures ValidBody(s[|Open|..j])
  {
    var b := s[|Open|..j];
    assert b + Close == s[|Open|..j + |Close|];
    forall k | 0 <= k < |b| ensures b[k] != '\n' && !OccursAt(b + Close, k, Close) {
      assert b[k] == s[|Open| + k];
      if OccursAt(b + Close, k, Close) {
        OccursInSlice(s, |Open|, j + |Close|, k, Close);
      }
    }
  }

  /** The scan of `re.sub`: at each position, either the pattern matches and the
      whole span is consumed, or one literal character is kept and the scan
      moves on by one. */
  function Scan(s: string): (ps: seq<Piece>)
    decreases |s|
    ensures forall k :: 0 <= k < |ps| && ps[k].Tagged? ==> ValidBody(ps[k].body)
  {
    if s == [] then []
    else
      match MatchAt(s)
      case Some(j) => [Tagged(s[|Open|..j])] + Scan(s[j + |Close|..])
      case None => [Plain(s[0])] + Scan(s[1..])
  }

  /** The text a piece was scanned from. */
  function Source(p: Piece): string
  {
    match p
    case Plain(c) => [c]
    case Tagged(b) => Open + b + Close
  }

  function Unscan(ps: seq<Piece>): string
  {
    if ps == [] then [] else Source(ps[0]) + Unscan(ps[1..])
  }

  /** The output of the substitution: literal characters are copied, and each
      span is replaced by `repl` of its body. */
  function Render(ps: seq<Piece>, repl: string -> string): string
  {
    if ps == [] then []
    else
      (match ps[0] case Plain(c) => [c] case Tagged(b) => repl(b)) + Render(ps[1..], repl)
  }

  /** `re.sub(r"<tag>(.*?)</tag>", repl, s)`, with `repl` given the group. */
  function Sub(s: string, repl: string -> string): string
  {
    Render(Scan(s), repl)
  }

  /** The replacement that deletes a span, `re.sub(pattern, "", s)`. */
  function Erase(body: string): string
  {
    []
  }

  /** Some `<tag>` is followed, on the same line, by a `</tag>`. */
  ghost predicate HasSpan(s: string)
  {
    exists i, j :: OccursAt(s, i, Open) && OccursAt(s, j, Close) && i + |Open| <= j && NoLineFeed(s, i + |Open|, j)
  }

  predicate AllPlain(ps: seq<Piece>)
  {
    forall k :: 0 <= k < |ps| ==> ps[k].Plain?
  }

  function Plains(a: string): (ps: seq<Piece>)
    ensures |ps| == |a| && AllPlain(ps)
    ensures forall k :: 0 <= k < |a| ==> ps[k] == Plain(a[k])
  {
    seq(|a|, k requires 0 <= k < |a| => Plain(a[k]))
  }

  // ---------------------------------------------------------------------------
  // What the scan promises

  /** The pieces put back together are the text that was scanned. */
  lemma {:induction false} ScanRoundTrip(s: string)
    ensures Unscan(Scan(s)) == s
    decreases |s|
  {
    if s != [] {
      match MatchAt(s)
      case Some(j) =>
        var rest := s[j + |Close|..];
        ScanSpanHead(s, j);
        UnscanCons(Tagged(s[|Open|..j]), Scan(rest));
        ScanRoundTrip(rest);
        SpanSource(s, j);
      case None =>
        ScanNoMatchHead(s);
        UnscanCons(Plain(s[0]), Scan(s[1..]));
        ScanRoundTrip(s[1..]);
        assert s == [s[0]] + s[1..];
    }
  }

  lemma ScanSpanHead(s: string, j: nat)
    requires MatchAt(s) == Some(j)
    ensures Scan(s) == [Tagged(s[|Open|..j])] + Scan(s[j + |Close|..])
  {
  }

  lemma ScanNoMatchHead(s: string)
    requires s != [] && MatchAt(s).None?
    ensures Scan(s) == [Plain(s[0])] + Scan(s[1..])
  {
  }

  lemma UnscanCons(p: Piece, ps: seq<Piece>)
    ensures Unscan([p] + ps) == Source(p) + Unscan(ps)
  {
    assert ([p] + ps)[1..] == ps;
  }

  lemma SpanSource(s: string, j: nat)
    requires |Open| <= j && j + |Close| <= |s| && OccursAt(s, 0, Open) && OccursAt(s, j, Close)
    ensures s == Open + s[|Open|..j] + Close + s[j + |Close|..]
  {
    assert s[..|Open|] == Open;
    assert s[j..j + |Close|] == Close;
    assert s == s[..|Open|] + s[|Open|..j] + s[j..j + |Close|] + s[j + |Close|..];
  }

  /** Completeness of the close search: a `</tag>` reachable without a line feed
      and with no earlier `</tag>` is the one found. */
  lemma {:induction false} FindCloseFirst(s: string, k: nat, j: nat)
    requires k <= j && OccursAt(s, j, Close)
    requires forall i :: k <= i < j ==> s[i] != '\n' && !OccursAt(s, i, Close)
    ensures FindClose(s, k) == Some(j)
    decreases j - k
  {
    if k < j {
      assert s[k..k + |Close|] != Close by { assert !OccursAt(s, k, Close); }
      FindCloseFirst(s, k + 1, j);
    }
  }

  /** Some `</tag>` reachable without a line feed means the search succeeds. */
  lemma {:induction false} FindCloseReaches(s: string, k: nat, j: nat)
    requires k <= j && OccursAt(s, j, Close) && NoLineFeed(s, k, j)
    ensures FindClose(s, k).Some?
    decreases j - k
  {
    if k < j && !OccursAt(s, k, Close) {
      assert s[k] != '\n';
      FindCloseReaches(s, k + 1, j);
    }
  }

  /** The pattern matches at the start of `<tag>BODY</tag>REST` with exactly
      that body whenever the body is one the lazy group would capture. */
  lemma MatchSpan(b: string, t: string)
    requires ValidBody(b)
    ensures MatchAt(Open + b + Close + t) == Some(|Open| + |b|)
  {
    var s := Open + b + Close + t;
    var j := |Open| + |b|;
    assert s[..|Open|] == Open;
    assert s[j..j + |Close|] == Close;
    forall i | |Open| <= i < j ensures s[i] != '\n' && !OccursAt(s, i, Close) {
      var k := i - |Open|;
      assert s[i] == b[k];
      assert !OccursAt(b + Close, k, Close);
      assert i + |Close| <= |s| ==> (b + Close)[k..k + |Close|] == s[i..i + |Close|];
    }
    FindCloseFirst(s, |Open|, j);
  }

  /** A scan sees a span exactly when the text has one: with no span, every
      piece is a literal character. */
  lemma {:induction false} AllPlainIffNoSpan(s: string)
    ensures AllPlain(Scan(s)) <==> !HasSpan(s)
    decreases |s|
  {
    if s == [] {
    } else {
      match MatchAt(s)
      case Some(j) =>
        assert Scan(s)[0].Tagged?;
        assert OccursAt(s, 0, Open) && OccursAt(s, j, Close) && NoLineFeed(s, |Open|, j);
      case None =>
        AllPlainIffNoSpan(s[1..]);
        var ps := Scan(s);
        assert ps[1..] == Scan(s[1..]);
        assert AllPlain(ps) <==> AllPlain(Scan(s[1..]));
        SpanShift(s);
    }
  }

  /** With no match at the start, `s` has a span exactly when `s[1..]` has one. */
  lemma SpanShift(s: string)
    requires s != [] && MatchAt(s).None?
    ensures HasSpan(s) <==> HasSpan(s[1..])
  {
    if HasSpan(s) {
      var i, j :| OccursAt(s, i, Open) && OccursAt(s, j, Close) && i + |Open| <= j && NoLineFeed(s, i + |Open|, j);
      SpanDown(s, i, j);
    }
    if HasSpan(s[1..]) {
      var i, j :| OccursAt(s[1..], i, Open) && OccursAt(s[1..], j, Close) && i + |Open| <= j && NoLineFeed(s[1..], i + |Open|, j);
      SpanUp(s, i, j);
    }
  }

  lemma SpanDown(s: string, i: int, j: int)
    requires s != [] && MatchAt(s).None?
    requires OccursAt(s, i, Open) && OccursAt(s, j, Close) && i + |Open| <= j && NoLineFeed(s, i + |Open|, j)
    ensures HasSpan(s[1..])
  {
    assert i != 0 by {
      if i == 0 { FindCloseReaches(s, |Open|, j); }
    }
    var t := s[1..];
    assert t[i - 1..i - 1 + |Open|] == s[i..i + |Open|];
    assert t[j - 1..j - 1 + |Close|] == s[j..j + |Close|];
    assert NoLineFeed(t, i - 1 + |Open|, j - 1) by {
      forall k | i - 1 + |Open| <= k < j - 1 && 0 <= k < |t| ensures t[k] != '\n' {
        assert t[k] == s[k + 1];
      }
    }
    assert OccursAt(t, i - 1, Open) && OccursAt(t, j - 1, Close);
  }

  lemma SpanUp(s: string, i: int, j: int)
    requires s != []
    requires OccursAt(s[1..], i, Open) && OccursAt(s[1..], j, Close) && i + |Open| <= j && NoLineFeed(s[1..], i + |Open|, j)
    ensures HasSpan(s)
  {
    var t := s[1..];
    assert |t| == |s| - 1;
    assert 0 <= i && i + |Open| <= |t|;
    assert t[i..i + |Open|] == Open;
    assert s[i + 1..i + 1 + |Open|] == t[i..i + |Open|] by {
      var u, v := s[i + 1..i + 1 + |Open|], t[i..i + |Open|];
      assert |u| == |v|;
      forall k | 0 <= k < |u| ensures u[k] == v[k] { assert u[k] == s[i + 1 + k] && v[k] == t[i + k]; }
    }
    assert s[j + 1..j + 1 + |Close|] == t[j..j + |Close|];
    assert NoLineFeed(s, i + 1 + |Open|, j + 1) by {
      forall k | i + 1 + |Open| <= k < j + 1 && 0 <= k < |s| ensures s[k] != '\n' {
        assert s[k] == t[k - 1];
      }
    }
    assert OccursAt(s, i + 1, Open) && OccursAt(s, j + 1, Close);
  }

  /** Literal pieces are copied through unchanged. */
  lemma {:induction false} RenderAllPlain(ps: seq<Piece>, repl: string -> string)
    requires AllPlain(ps)
    ensures Render(ps, repl) == Unscan(ps)
  {
    if ps != [] { RenderAllPlain(ps[1..], repl); }
  }

  /** Text with no complete span comes back unchanged, whatever the replacement. */
  lemma SubWithoutSpan(s: string, repl: string -> string)
    requires !HasSpan(s)
    ensures Sub(s, repl) == s
  {
    AllPlainIffNoSpan(s);
    RenderAllPlain(Scan(s), repl);
    ScanRoundTrip(s);
  }

  /** Deleting every span keeps the remaining characters in their order: the
      result is a subsequence of the input, nothing is inserted. */
  lemma EraseIsSubsequence(s: string)
    ensures IsSubsequence(Sub(s, Erase), s)
  {
    ScanRoundTrip(s);
    ErasedPiecesSubsequence(Scan(s));
  }

  lemma {:induction false} ErasedPiecesSubsequence(ps: seq<Piece>)
    ensures IsSubsequence(Render(ps, Erase), Unscan(ps))
  {
    if ps != [] {
      var r, u := Render(ps[1..], Erase), Unscan(ps[1..]);
      ErasedPiecesSubsequence(ps[1..]);
      match ps[0]
      case Plain(c) =>
        assert Render(ps, Erase) == [c] + r;
        assert ([c] + r)[1..] == r && ([c] + u)[1..] == u;
      case Tagged(b) =>
        assert Render(ps, Erase) == r;
        SubsequenceOfLonger(r, Source(ps[0]), u);
    }
  }

  // ---------------------------------------------------------------------------
  // Splitting a text into parts the scan handles one at a time

  /** A leading run without `<` is copied literally before the rest is scanned. */
  lemma {:induction false} ScanLiteralPrefix(a: string, t: string)
    requires '<' !in a
    ensures Scan(a + t) == Plains(a) + Scan(t)
    decreases |a|
  {
    if a != [] {
      var s := a + t;
      assert s[0] == a[0] && s[1..] == a[1..] + t;
      assert !OccursAt(s, 0, Open) by { assert s[0] != Open[0]; }
      ScanLiteralHead(s);
      ScanLiteralPrefix(a[1..], t);
      PlainsCons(a);
      assert [Plain(a[0])] + (Plains(a[1..]) + Scan(t)) == ([Plain(a[0])] + Plains(a[1..])) + Scan(t);
    } else {
      assert a + t == t;
    }
  }

  lemma PlainsCons(a: string)
    requires a != []
    ensures Plains(a) == [Plain(a[0])] + Plains(a[1..])
  {
  }

  /** A leading `<tag>BODY</tag>` is one span when the body is one the lazy group captures. */
  lemma ScanSpanPrefix(b: string, t: string)
    requires ValidBody(b)
    ensures Scan(Open + b + Close + t) == [Tagged(b)] + Scan(t)
  {
    var s := Open + b + Close + t;
    MatchSpan(b, t);
    assert s[|Open|..|Open| + |b|] == b;
    assert s[|Open| + |b| + |Close|..] == t;
  }

  /** A first character that does not start `<tag>` is kept literally. */
  lemma ScanLiteralHead(s: string)
    requires s != [] && !OccursAt(s, 0, Open)
    ensures Scan(s) == [Plain(s[0])] + Scan(s[1..])
  {
  }

  lemma {:induction false} RenderAppend(ps: seq<Piece>, qs: seq<Piece>, repl: string -> string)
    ensures Render(ps + qs, repl) == Render(ps, repl) + Render(qs, repl)
  {
    if ps != [] {
      assert (ps + qs)[1..] == ps[1..] + qs;
      RenderAppend(ps[1..], qs, repl);
    } else {
      assert ps + qs == qs;
    }
  }

  lemma {:induction false} RenderPlains(a: string, repl: string -> string)
    ensures Render(Plains(a), repl) == a
  {
    RenderAllPlain(Plains(a), repl);
    UnscanPlains(a);
  }

  lemma {:induction false} UnscanPlains(a: string)
    ensures Unscan(Plains(a)) == a
  {
    if a != [] {
      assert Plains(a)[1..] == Plains(a[1..]);
      UnscanPlains(a[1..]);
    }
  }

  /** One span between two runs without `<`: only the span is replaced. */
  lemma SubOneSpan(a: string, b: string, c: string, repl: string -> string)
    requires '<' !in a && '<' !in c && ValidBody(b)
    ensures Sub(a + Open + b + Close + c, repl) == a + repl(b) + c
  {
    var t := Open + b + Close + c;
    assert a + Open + b + Close + c == a + t;
    ScanLiteralPrefix(a, t);
    ScanSpanPrefix(b, c);
    ScanAllLiteral(c);
    var ps := Plains(a) + ([Tagged(b)] + Plains(c));
    assert Scan(a + t) == ps;
    RenderAppend(Plains(a), [Tagged(b)] + Plains(c), repl);
    RenderAppend([Tagged(b)], Plains(c), repl);
    RenderPlains(a, repl);
    RenderPlains(c, repl);
  }

  /** A text without `<` is all literal characters. */
  lemma ScanAllLiteral(c: string)
    requires '<' !in c
    ensures Scan(c) == Plains(c)
  {
    ScanLiteralPrefix(c, []);
    assert c + [] == c;
    assert Plains(c) + [] == Plains(c);
  }

  /** A body without `<` or line feed is one the lazy group captures. */
  lemma BodyWithoutAngle(b: string)
    requires '<' !in b && '\n' !in b
    ensures ValidBody(b)
  {
    forall k | 0 <= k < |b| ensures !OccursAt(b + Close, k, Close) {
      assert b[k] != '<';
      assert (b + Close)[k] == b[k];
    }
  }

  /** A leading run without `<` is copied through the substitution. */
  lemma SubLiteralPrefix(a: string, t: string, repl: string -> string)
    requires '<' !in a
    ensures Sub(a + t, repl) == a + Sub(t, repl)
  {
    ScanLiteralPrefix(a, t);
    RenderAppend(Plains(a), Scan(t), repl);
    RenderPlains(a, repl);
  }

  /** A lone `</tag>` is literal text. */
  lemma SubKeepsClose(repl: string -> string)
    ensures Sub(Close, repl) == Close
  {
    assert Close[1] != Open[1];
    ScanLiteralHead(Close);
    SubLiteralPrefix(Close[1..], [], repl);
    assert Close[1..] + [] == Close[1..];
    RenderAppend([Plain('<')], Scan(Close[1..]), repl);
  }

  /** A `<` just before a span is literal, and the span after it is matched. */
  lemma SubAfterAngle(b: string, c: string, repl: string -> string)
    requires ValidBody(b)
    ensures Sub("<" + Open + b + Close + c, repl) == "<" + repl(b) + Sub(c, repl)
  {
    var s := "<" + (Open + b + Close + c);
    assert "<" + Open + b + Close + c == s;
    assert s[1] != Open[1];
    ScanLiteralHead(s);
    assert s[1..] == Open + b + Close + c;
    ScanSpanPrefix(b, c);
    RenderAppend([Plain('<')], [Tagged(b)] + Scan(c), repl);
    RenderAppend([Tagged(b)], Scan(c), repl);
  }

  /** The substitution is not scanned again, so deleting a span can join a `<`
      before it and a `tag>` after it into a new, complete span in the output. */
  lemma ErasedSpanJoins(b: string, x: string, repl: string -> string)
    requires ValidBody(b) && repl(b) == [] && '<' !in x
    ensures Sub("<" + Open + b + Close + "tag>" + x + Close, repl) == Open + x + Close
  {
    JoinHead(b, x, repl);
    JoinTail(x, repl);
    JoinText(x);
  }

  lemma JoinHead(b: string, x: string, repl: string -> string)
    requires ValidBody(b) && repl(b) == []
    ensures Sub("<" + Open + b + Close + "tag>" + x + Close, repl) == "<" + Sub("tag>" + x + Close, repl)
  {
    var c := "tag>" + x + Close;
    assert "<" + Open + b + Close + "tag>" + x + Close == "<" + Open + b + Close + c;
    SubAfterAngle(b, c, repl);
  }

  lemma JoinTail(x: string, repl: string -> string)
    requires '<' !in x
    ensures Sub("tag>" + x + Close, repl) == "tag>" + x + Close
  {
    SubLiteralPrefix("tag>" + x, Close, repl);
    SubKeepsClose(repl);
  }

  lemma JoinText(x: string)
    ensures "<" + ("tag>" + x) + Close == Open + x + Close
  {
  }

  /** `<tag>BODY</tag>` with a body on one line is a span. */
  lemma SpanOf(x: string)
    requires '\n' !in x
    ensures HasSpan(Open + x + Close)
  {
    var s := Open + x + Close;
    assert OccursAt(s, 0, Open);
    assert OccursAt(s, |Open| + |x|, Close);
    assert NoLineFeed(s, |Open|, |Open| + |x|);
  }
}
