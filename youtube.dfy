/**
 * `convert_youtube_url_with_timestamp` (main.py): the rewrite of a shared
 * YouTube link into an embed link that starts at the shared time.
 *
 * The three regular expressions the function searches with all have the
 * shape "some fixed character classes, then a captured run of one or more
 * characters of a class", so they are modelled by one small matcher with
 * Python's `re.search` semantics: the leftmost position where the pattern
 * matches, and the longest run there (the `+` is greedy and nothing follows
 * it).  `urlparse` and `parse_qs` are a parameter: the first value of each
 * query parameter, or None.
 */
module YouTube {
  import opened Wrappers
  import opened Text

  /** A bracket expression: `[abc]` or `[^abc]`. */
  datatype CharClass = AnyOf(chars: set<char>) | NoneOf(excluded: set<char>)

  predicate InClass(c: char, cls: CharClass)
  {
    match cls
    case AnyOf(cs) => c in cs
    case NoneOf(cs) => c !in cs
  }

  /** A pattern `lead(run+)`: one class per leading character, then a captured run. */
  datatype Pattern = Pattern(lead: seq<CharClass>, run: CharClass)

  /** The classes of a literal string. */
  function Literal(w: string): (r: seq<CharClass>)
    ensures |r| == |w|
    ensures forall k :: 0 <= k < |w| ==> r[k] == AnyOf({w[k]})
  {
    seq(|w|, k requires 0 <= k < |w| => AnyOf({w[k]}))
  }

  /** `\d`, on ASCII digits. */
  const Digit: CharClass := AnyOf(set c: char | '0' <= c <= '9')

  /** `youtu\.be/([^?]+)`. */
  const ShortLink: Pattern := Pattern(Literal("youtu.be/"), NoneOf({'?'}))
  /** `[?&]t=(\d+)`. */
  const TimeParameter: Pattern := Pattern([AnyOf({'?', '&'})] + Literal("t="), Digit)
  /** `shorts/([^?]+)`. */
  const ShortsLink: Pattern := Pattern(Literal("shorts/"), NoneOf({'?'}))

  const EmbedPrefix: string := "https://www.youtube.com/embed/"

  /** The leading classes match at `i`. */
  predicate LeadAt(s: string, i: int, lead: seq<CharClass>)
  {
    0 <= i && i + |lead| <= |s| && forall k :: 0 <= k < |lead| ==> InClass(s[i + k], lead[k])
  }

  /** The pattern matches at `i`: its lead, then at least one run character. */
  predicate MatchAt(s: string, i: int, p: Pattern)
  {
    LeadAt(s, i, p.lead) && i + |p.lead| < |s| && InClass(s[i + |p.lead|], p.run)
  }

  /** The longest run of `cls` characters starting at `i`. */
  function Run(s: string, i: nat, cls: CharClass): (r: string)
    requires i <= |s|
    ensures i + |r| <= |s| && r == s[i..i + |r|]
    ensures forall k :: 0 <= k < |r| ==> InClass(r[k], cls)
    ensures i + |r| == |s| || !InClass(s[i + |r|], cls)
    decreases |s| - i
  {
    if i < |s| && InClass(s[i], cls) then [s[i]] + Run(s, i + 1, cls) else []
  }

  /** The leftmost position at or after `i` where `p` matches. */
  function Search(s: string, p: Pattern, i: nat): (r: Option<nat>)
    requires i <= |s|
    ensures r.Some? ==>
      i <= r.value < |s| && MatchAt(s, r.value, p) && forall k :: i <= k < r.value ==> !MatchAt(s, k, p)
    ensures r.None? ==> forall k :: i <= k ==> !MatchAt(s, k, p)
    decreases |s| - i
  {
    if i == |s| then None
    else if MatchAt(s, i, p) then Some(i)
    else Search(s, p, i + 1)
  }

  /** `re.search(p, s).group(1)`, or None when there is no match. */
  function SearchGroup(s: string, p: Pattern): (r: Option<string>)
    ensures r.Some? ==> r.value != [] && forall k :: 0 <= k < |r.value| ==> InClass(r.value[k], p.run)
  {
    match Search(s, p, 0)
    case None => None
    case Some(i) => Some(Run(s, i + |p.lead|, p.run))
  }

  /** What the function extracts before building the link. */
  datatype Reference = Reference(videoId: Option<string>, timestamp: Option<string>)

  /** The three branches: `youtu.be` links, `youtube.com/watch` links (read
      through their query parameters), and `youtube.com/shorts` links. */
  function ExtractReference(url: string, query: string -> Option<string>): Reference
  {
    if Contains(url, "youtu.be") then Reference(SearchGroup(url, ShortLink), SearchGroup(url, TimeParameter))
    else if Contains(url, "youtube.com/watch") then Reference(query("v"), query("t"))
    else if Contains(url, "youtube.com/shorts") then Reference(SearchGroup(url, ShortsLink), None)
    else Reference(None, None)
  }

  predicate Truthy(s: Option<string>)
  {
    s.Some? && s.value != []
  }

  /** `convert_youtube_url_with_timestamp`. */
  function ConvertYoutubeUrl(url: string, query: string -> Option<string>): (r: string)
    ensures r == url || StartsWith(r, EmbedPrefix)
    ensures var ref := ExtractReference(url, query);
      (!Truthy(ref.videoId) ==> r == url) &&
      (Truthy(ref.videoId) && !Truthy(ref.timestamp) ==> r == EmbedPrefix + ref.videoId.value) &&
      (Truthy(ref.videoId) && Truthy(ref.timestamp) ==> r == EmbedPrefix + ref.videoId.value + "?start=" + ref.timestamp.value)
  {
    var ref := ExtractReference(url, query);
    if Truthy(ref.videoId) then
      var embed := EmbedPrefix + ref.videoId.value;
      assert OccursAt(embed, 0, EmbedPrefix);
      if Truthy(ref.timestamp) then
        assert (embed + "?start=" + ref.timestamp.value)[..|EmbedPrefix|] == EmbedPrefix;
        embed + "?start=" + ref.timestamp.value
      else embed
    else url
  }

  // ---------------------------------------------------------------------------
  // What the conversion promises

  /** A literal lead matches exactly where the literal occurs. */
  lemma LiteralLead(s: string, i: int, w: string)
    ensures LeadAt(s, i, Literal(w)) <==> OccursAt(s, i, w)
  {
    if LeadAt(s, i, Literal(w)) {
      assert forall k :: 0 <= k < |w| ==> s[i..i + |w|][k] == w[k];
    }
  }

  /** The captured text follows the literal lead: `lead + group` occurs in `s`. */
  lemma GroupFollowsLiteral(s: string, w: string, run: CharClass)
    requires SearchGroup(s, Pattern(Literal(w), run)).Some?
    ensures Contains(s, w + SearchGroup(s, Pattern(Literal(w), run)).value)
  {
    var p := Pattern(Literal(w), run);
    var i := Search(s, p, 0).value;
    var g := Run(s, i + |w|, run);
    LiteralLead(s, i, w);
    OccursThen(s, i, w, g);
  }

  /** `w` at `i` followed by `g` is `w + g` at `i`. */
  lemma OccursThen(s: string, i: int, w: string, g: string)
    requires OccursAt(s, i, w) && i + |w| + |g| <= |s| && s[i + |w|..i + |w| + |g|] == g
    ensures OccursAt(s, i, w + g)
  {
    assert s[i..i + |w| + |g|] == s[i..i + |w|] + s[i + |w|..i + |w| + |g|];
  }

  /** For a `youtu.be` link the video id is a non-empty run without `?` that
      follows `youtu.be/` in the link, and the start time is a run of digits. */
  lemma ShortLinkReference(url: string, query: string -> Option<string>)
    requires Contains(url, "youtu.be")
    ensures var ref := ExtractReference(url, query);
      (ref.videoId.Some? ==>
         ref.videoId.value != [] && '?' !in ref.videoId.value && Contains(url, "youtu.be/" + ref.videoId.value)) &&
      (ref.timestamp.Some? ==>
         ref.timestamp.value != [] && forall k :: 0 <= k < |ref.timestamp.value| ==> '0' <= ref.timestamp.value[k] <= '9')
  {
    var ref := ExtractReference(url, query);
    if ref.videoId.Some? {
      GroupFollowsLiteral(url, "youtu.be/", NoneOf({'?'}));
      var id := ref.videoId.value;
      assert forall k :: 0 <= k < |id| ==> InClass(id[k], NoneOf({'?'}));
    }
  }

  /** For a shorts link the video id follows `shorts/` and there is no start time. */
  lemma ShortsReference(url: string, query: string -> Option<string>)
    requires !Contains(url, "youtu.be") && !Contains(url, "youtube.com/watch") && Contains(url, "youtube.com/shorts")
    ensures var ref := ExtractReference(url, query);
      ref.timestamp.None? &&
      (ref.videoId.Some? ==>
         ref.videoId.value != [] && '?' !in ref.videoId.value && Contains(url, "shorts/" + ref.videoId.value))
  {
    var ref := ExtractReference(url, query);
    if ref.videoId.Some? {
      GroupFollowsLiteral(url, "shorts/", NoneOf({'?'}));
      var id := ref.videoId.value;
      assert forall k :: 0 <= k < |id| ==> InClass(id[k], NoneOf({'?'}));
    }
  }

  /** A link that is none of the three kinds comes back unchanged. */
  lemma OtherLinksUnchanged(url: string, query: string -> Option<string>)
    requires !Contains(url, "youtu.be") && !Contains(url, "youtube.com/watch") && !Contains(url, "youtube.com/shorts")
    ensures ConvertYoutubeUrl(url, query) == url
  {
  }

  /** A watch link without a `t` parameter is rebuilt from its `v` parameter. */
  lemma WatchLink(url: string, query: string -> Option<string>, id: string)
    requires !Contains(url, "youtu.be") && Contains(url, "youtube.com/watch")
    requires query("v") == Some(id) && id != [] && query("t").None?
    ensures ConvertYoutubeUrl(url, query) == EmbedPrefix + id
  {
  }

  /** A watch link with non-empty `v` and `t` parameters starts at that time. */
  lemma WatchLinkWithTime(url: string, query: string -> Option<string>, id: string, seconds: string)
    requires !Contains(url, "youtu.be") && Contains(url, "youtube.com/watch")
    requires query("v") == Some(id) && id != [] && query("t") == Some(seconds) && seconds != []
    ensures ConvertYoutubeUrl(url, query) == EmbedPrefix + id + "?start=" + seconds
  {
  }

  /** A shorts link whose id is found becomes the embed link, with no start time. */
  lemma ShortsLinkConverted(url: string, query: string -> Option<string>, id: string)
    requires !Contains(url, "youtu.be") && !Contains(url, "youtube.com/watch") && Contains(url, "youtube.com/shorts")
    requires SearchGroup(url, ShortsLink) == Some(id)
    ensures ConvertYoutubeUrl(url, query) == EmbedPrefix + id
  {
    ShortsReference(url, query);
  }

  /** A watch link without a `v` parameter comes back unchanged, whatever its `t`. */
  lemma WatchLinkWithoutVideo(url: string, query: string -> Option<string>)
    requires !Contains(url, "youtu.be") && Contains(url, "youtube.com/watch")
    requires query("v").None?
    ensures ConvertYoutubeUrl(url, query) == url
  {
  }

  /** A `youtu.be` link whose id is found but carries no time becomes the
      embed link with no start time. */
  lemma ShortLinkWithoutTime(url: string, query: string -> Option<string>, id: string)
    requires Contains(url, "youtu.be")
    requires SearchGroup(url, ShortLink) == Some(id) && SearchGroup(url, TimeParameter).None?
    ensures ConvertYoutubeUrl(url, query) == EmbedPrefix + id
  {
    ShortLinkReference(url, query);
  }

  /** A `youtu.be` link whose id is not found comes back unchanged, whatever its time. */
  lemma ShortLinkWithoutVideo(url: string, query: string -> Option<string>)
    requires Contains(url, "youtu.be") && SearchGroup(url, ShortLink).None?
    ensures ConvertYoutubeUrl(url, query) == url
  {
  }

  /** `https://youtu.be/ID`, with no parameters, becomes `EmbedPrefix + ID`. */
  lemma PlainShortLink(id: string, query: string -> Option<string>)
    requires id != [] && '?' !in id && '&' !in id
    ensures ConvertYoutubeUrl("https://youtu.be/" + id, query) == EmbedPrefix + id
  {
    var url := "https://youtu.be/" + id;
    ShortLinkHost(url, id, []);
    assert url == "https://youtu.be/" + id + [];
    ShortLinkAfterHost(url, id, []);
    assert '?' !in url && '&' !in url by {
      HostIsClean();
      assert forall k :: 0 <= k < |url| ==> url[k] == if k < 17 then "https://youtu.be/"[k] else id[k - 17];
    }
    CleanPrefix(url);
    NoTimeFound(url);
    ShortLinkWithoutTime(url, query, id);
  }

  /** `https://youtu.be/?t=SECONDS` has no id, so it comes back unchanged
      even though it carries a time. */
  lemma ShortLinkWithOnlyTime(seconds: string, query: string -> Option<string>)
    requires forall k :: 0 <= k < |seconds| ==> '0' <= seconds[k] <= '9'
    ensures ConvertYoutubeUrl("https://youtu.be/?t=" + seconds, query) == "https://youtu.be/?t=" + seconds
  {
    var url := "https://youtu.be/?t=" + seconds;
    ShortLinkHost(url, [], "?t=" + seconds);
    OnlyTimeNoMatch(url, seconds);
    ShortLinkWithoutVideo(url, query);
  }

  /** In `https://youtu.be/?t=SECONDS` the short-link pattern matches nowhere:
      `y` occurs only at index 8, and a `?` follows `youtu.be/`. */
  lemma OnlyTimeNoMatch(url: string, seconds: string)
    requires url == "https://youtu.be/?t=" + seconds
    requires forall k :: 0 <= k < |seconds| ==> '0' <= seconds[k] <= '9'
    ensures SearchGroup(url, ShortLink).None?
  {
    var head := "https://youtu.be/?t=";
    assert forall k :: 0 <= k < 20 ==> url[k] == head[k];
    assert forall k :: 20 <= k < |url| ==> url[k] == seconds[k - 20];
    assert ShortLink.lead[0] == AnyOf({'y'});
    forall k | 0 <= k < |url| ensures !MatchAt(url, k, ShortLink) {
      if k == 8 {
        assert url[17] == '?';
      } else {
        assert url[k] != 'y';
        assert !InClass(url[k + 0], ShortLink.lead[0]);
      }
    }
  }

  /** Where no `?` or `&` is followed by `t`, the time search finds nothing. */
  lemma NoTimeFound(s: string)
    requires NoTimeStart(s)
    ensures SearchGroup(s, TimeParameter).None?
  {
    assert TimeParameter.lead[0] == AnyOf({'?', '&'});
    assert TimeParameter.lead[1] == AnyOf({'t'});
    forall k | 0 <= k < |s| ensures !MatchAt(s, k, TimeParameter) {
      assert NoTimeStartAt(s, k);
    }
  }

  /** `https://youtu.be/ID?t=SECONDS` becomes `EmbedPrefix + ID + "?start=" + SECONDS`. */
  lemma ShortLinkWithTime(id: string, seconds: string, query: string -> Option<string>)
    requires id != [] && '?' !in id && '&' !in id
    requires seconds != [] && forall k :: 0 <= k < |seconds| ==> '0' <= seconds[k] <= '9'
    ensures ConvertYoutubeUrl("https://youtu.be/" + id + "?t=" + seconds, query) ==
      EmbedPrefix + id + "?start=" + seconds
  {
    var url := "https://youtu.be/" + id + "?t=" + seconds;
    ShortLinkHost(url, id, "?t=" + seconds);
    ShortLinkAfterHost(url, id, "?t=" + seconds);
    ShortLinkTime(url, id, seconds);
    ConvertWithTime(url, query, id, seconds);
  }

  /** The shape of a shared link, `https://youtu.be/ID?si=...&t=SECONDS`,
      becomes `EmbedPrefix + ID + "?start=" + SECONDS`. */
  lemma ShortLinkWithSharedTime(id: string, share: string, seconds: string, query: string -> Option<string>)
    requires id != [] && '?' !in id && '&' !in id
    requires share != [] && share[0] != 't' && '?' !in share && '&' !in share
    requires seconds != [] && forall k :: 0 <= k < |seconds| ==> '0' <= seconds[k] <= '9'
    ensures ConvertYoutubeUrl("https://youtu.be/" + id + "?" + share + "&t=" + seconds, query) ==
      EmbedPrefix + id + "?start=" + seconds
  {
    var url := "https://youtu.be/" + id + "?" + share + "&t=" + seconds;
    ShortLinkHost(url, id, "?" + share + "&t=" + seconds);
    ShortLinkAfterHost(url, id, "?" + share + "&t=" + seconds);
    SharedTime(url, id, share, seconds);
    ConvertWithTime(url, query, id, seconds);
  }

  lemma SharedTime(url: string, id: string, share: string, seconds: string)
    requires url == "https://youtu.be/" + id + "?" + share + "&t=" + seconds
    requires '?' !in id && '&' !in id
    requires share != [] && share[0] != 't' && '?' !in share && '&' !in share
    requires seconds != [] && forall k :: 0 <= k < |seconds| ==> '0' <= seconds[k] <= '9'
    ensures SearchGroup(url, TimeParameter) == Some(seconds)
  {
    var clean := "https://youtu.be/" + id;
    var prefix := clean + "?" + share;
    assert url == prefix + ['&'] + "t=" + seconds;
    assert '?' !in clean && '&' !in clean by {
      HostIsClean();
    }
    SharedPrefix(clean, share);
    TimeAfter(prefix, '&', seconds);
  }

  /** A clean prefix, `?`, and parameters that do not start with `t` meet the
      condition of `TimeAfter`. */
  lemma SharedPrefix(clean: string, share: string)
    requires '?' !in clean && '&' !in clean
    requires share != [] && share[0] != 't' && '?' !in share && '&' !in share
    ensures NoTimeStart(clean + "?" + share)
  {
    var prefix := clean + "?" + share;
    forall k | 0 <= k < |prefix| ensures NoTimeStartAt(prefix, k) {
      if k < |clean| {
        assert prefix[k] == clean[k] && clean[k] in clean;
      } else if k == |clean| {
        assert prefix[k + 1] == share[0];
      } else {
        assert prefix[k] == share[k - |clean| - 1] && share[k - |clean| - 1] in share;
      }
    }
  }

  lemma HostIsClean()
    ensures '?' !in "https://youtu.be/" && '&' !in "https://youtu.be/"
  {
  }

  /** A prefix without `?` and `&` meets the condition of `TimeAfter`. */
  lemma CleanPrefix(prefix: string)
    requires '?' !in prefix && '&' !in prefix
    ensures NoTimeStart(prefix)
  {
    forall k | 0 <= k < |prefix| ensures NoTimeStartAt(prefix, k) {
      assert prefix[k] in prefix;
    }
  }

  lemma ShortLinkHost(url: string, id: string, rest: string)
    requires url == "https://youtu.be/" + id + rest
    ensures Contains(url, "youtu.be")
  {
    assert url[8..16] == "youtu.be";
    assert OccursAt(url, 8, "youtu.be");
  }

  lemma ShortLinkTime(url: string, id: string, seconds: string)
    requires url == "https://youtu.be/" + id + "?t=" + seconds
    requires '?' !in id && '&' !in id
    requires seconds != [] && forall k :: 0 <= k < |seconds| ==> '0' <= seconds[k] <= '9'
    ensures SearchGroup(url, TimeParameter) == Some(seconds)
  {
    var prefix := "https://youtu.be/" + id;
    assert url == prefix + ['?'] + "t=" + seconds;
    assert '?' !in prefix && '&' !in prefix by {
      HostIsClean();
    }
    CleanPrefix(prefix);
    TimeAfter(prefix, '?', seconds);
  }

  /** A `youtu.be` link with both groups found becomes the embed link with a start. */
  lemma ConvertWithTime(url: string, query: string -> Option<string>, id: string, seconds: string)
    requires Contains(url, "youtu.be")
    requires SearchGroup(url, ShortLink) == Some(id) && SearchGroup(url, TimeParameter) == Some(seconds)
    ensures ConvertYoutubeUrl(url, query) == EmbedPrefix + id + "?start=" + seconds
  {
  }

  /** No `?` or `&` at `k` is followed by `t`: the time parameter cannot start there. */
  predicate NoTimeStartAt(s: string, k: int)
    requires 0 <= k < |s|
  {
    (s[k] != '?' && s[k] != '&') || (k + 1 < |s| && s[k + 1] != 't')
  }

  predicate NoTimeStart(s: string)
  {
    forall k :: 0 <= k < |s| ==> NoTimeStartAt(s, k)
  }

  /** In `PREFIX` + `SEP` + `t=SECONDS`, with `SEP` one of `?` and `&`, the time
      found is `SECONDS`, provided no `?` or `&` inside `PREFIX` is followed by `t`. */
  lemma TimeAfter(prefix: string, sep: char, seconds: string)
    requires sep == '?' || sep == '&'
    requires NoTimeStart(prefix)
    requires seconds != [] && forall k :: 0 <= k < |seconds| ==> '0' <= seconds[k] <= '9'
    ensures SearchGroup(prefix + [sep] + "t=" + seconds, TimeParameter) == Some(seconds)
  {
    var url := prefix + [sep] + "t=" + seconds;
    var q := |prefix|;
    forall k | 0 <= k < q ensures !MatchAt(url, k, TimeParameter) {
      assert NoTimeStartAt(prefix, k);
      NoTimeMatchAt(url, prefix, k);
    }
    assert TimeParameter.lead[0] == AnyOf({'?', '&'});
    assert TimeParameter.lead[1] == AnyOf({'t'});
    assert url[q..q + 3] == [sep] + "t=";
    assert url[q + 3] == seconds[0];
    assert MatchAt(url, q, TimeParameter);
    SearchFindsFirst(url, TimeParameter, 0, q);
    assert url[q + 3..q + 3 + |seconds|] == seconds;
    RunIs(url, q + 3, seconds, Digit);
  }

  lemma NoTimeMatchAt(url: string, prefix: string, k: int)
    requires |prefix| < |url| && url[..|prefix|] == prefix
    requires 0 <= k < |prefix| && NoTimeStartAt(prefix, k)
    ensures !MatchAt(url, k, TimeParameter)
  {
    assert TimeParameter.lead[0] == AnyOf({'?', '&'});
    assert TimeParameter.lead[1] == AnyOf({'t'});
    assert url[k] == prefix[k];
    if prefix[k] == '?' || prefix[k] == '&' {
      assert url[k + 1] == prefix[k + 1];
      assert !InClass(url[k + 1], TimeParameter.lead[1]);
    } else {
      assert !InClass(url[k + 0], TimeParameter.lead[0]);
    }
  }

  /** On `https://youtu.be/ID...` the video id is `ID` when the rest is empty
      or starts with `?`. */
  lemma ShortLinkAfterHost(url: string, id: string, rest: string)
    requires url == "https://youtu.be/" + id + rest
    requires id != [] && '?' !in id && (rest == [] || rest[0] == '?')
    ensures SearchGroup(url, ShortLink) == Some(id)
  {
    ShortLinkMatch(url, id, rest);
    ShortLinkRun(url, id, rest);
  }

  /** The short-link pattern first matches at `youtu.be/`, index 8. */
  lemma ShortLinkMatch(url: string, id: string, rest: string)
    requires url == "https://youtu.be/" + id + rest && id != [] && '?' !in id
    ensures Search(url, ShortLink, 0) == Some(8)
  {
    var host := "https://youtu.be/";
    assert url == host + (id + rest);
    assert forall k :: 0 <= k < 17 ==> url[k] == host[k];
    assert ShortLink.lead[0] == AnyOf({'y'});
    forall k | 0 <= k < 8 ensures !MatchAt(url, k, ShortLink) {
      assert !InClass(url[k + 0], ShortLink.lead[0]);
    }
    assert url[8..17] == host[8..17] == "youtu.be/";
    LiteralLead(url, 8, "youtu.be/");
    assert url[17] == id[0];
    assert MatchAt(url, 8, ShortLink);
    SearchFindsFirst(url, ShortLink, 0, 8);
  }

  /** After `youtu.be/`, the run without `?` is the id. */
  lemma ShortLinkRun(url: string, id: string, rest: string)
    requires url == "https://youtu.be/" + id + rest
    requires '?' !in id && (rest == [] || rest[0] == '?')
    ensures Run(url, 17, NoneOf({'?'})) == id
  {
    assert url[17..17 + |id|] == id;
    if rest != [] {
      assert url[17 + |id|] == rest[0];
    }
    RunIs(url, 17, id, NoneOf({'?'}));
  }

  /** The search returns the first match when nothing matches before it. */
  lemma {:induction false} SearchFindsFirst(s: string, p: Pattern, i: nat, m: nat)
    requires i <= m < |s| && MatchAt(s, m, p)
    requires forall k :: i <= k < m ==> !MatchAt(s, k, p)
    ensures Search(s, p, i) == Some(m)
    decreases m - i
  {
    if i < m {
      SearchFindsFirst(s, p, i + 1, m);
    }
  }

  /** The run at `i` is `w` when `w` is there, every character of `w` is in
      the class, and the character after it, if any, is not. */
  lemma {:induction false} RunIs(s: string, i: nat, w: string, cls: CharClass)
    requires i + |w| <= |s| && s[i..i + |w|] == w
    requires forall k :: 0 <= k < |w| ==> InClass(w[k], cls)
    requires i + |w| == |s| || !InClass(s[i + |w|], cls)
    ensures Run(s, i, cls) == w
    decreases |w|
  {
    if w != [] {
      assert s[i] == w[0];
      assert s[i + 1..i + |w|] == w[1..];
      RunIs(s, i + 1, w[1..], cls);
      assert [w[0]] + w[1..] == w;
    }
  }
}
