/**
 * `get_generation_history` (main.py): the scan of the data folder for earlier
 * requests, the two record formats it reads (`request.json`, and the legacy
 * `request.txt`), the newest-first ordering and the `[:limit]` cut.
 *
 * The file system is a parameter: whether the data folder exists and the
 * sub-folders `iterdir` yields, in that order, each with what its two request
 * files hold.  `datetime.fromisoformat` is the parameter `parse`, which maps a
 * string to a point in time (an ordinal, 0 standing for `datetime.min`) or
 * fails.
 */
module History {
  import opened Wrappers
  import opened Text
  import Base

  /** `datetime.fromisoformat`: a point in time, or None where it raises. */
  type Parser = string -> Option<nat>

  /** What opening and decoding a request file gives. */
  datatype FileState<T> = Missing | Unreadable | Loaded(content: T)

  /** The fields of a decoded `request.json`; a field the object lacks is None. */
  datatype JsonRequest = JsonRequest(
    timestamp: Option<string>, text: Option<string>, providerSettings: Option<seq<Base.Settings>>)

  /** One entry of the data folder. */
  datatype Folder = Folder(
    name: string, path: string, isDir: bool,
    requestJson: FileState<JsonRequest>, requestTxt: FileState<seq<string>>)

  /** The tuple `(uuid, folder_path, timestamp, text, provider_settings)`. */
  datatype Generation = Generation(
    uuid: string, folder: string, timestamp: Option<nat>, text: string,
    providerSettings: seq<Base.Settings>)

  /** What the legacy parser extracts: the last timestamp and the stripped text. */
  datatype Legacy = Legacy(timestamp: Option<nat>, text: string)

  const TimestampPrefix: string := "Timestamp:"

  /** The number of generations the history shows by default. */
  const DefaultLimit: int := 5

  // ---------------------------------------------------------------------------
  // The legacy request.txt

  predicate IsTimestampLine(line: string)
  {
    StartsWith(line, TimestampPrefix)
  }

  /** `line.replace("Timestamp:", "").strip()`. */
  function TimestampArgument(line: string): string
  {
    Strip(ReplaceAll(line, TimestampPrefix, ""))
  }

  /** A timestamp line whose value `fromisoformat` rejects. */
  predicate BadTimestampAt(lines: seq<string>, i: int, parse: Parser)
    requires 0 <= i < |lines|
  {
    BadLine(lines[i], parse)
  }

  predicate BadLine(line: string, parse: Parser)
  {
    IsTimestampLine(line) && parse(TimestampArgument(line)).None?
  }

  /** The state of the parsing loop: the variables `timestamp` and `text`, or
      the exception that ends it. */
  datatype ScanState = Scanning(timestamp: Option<nat>, text: string) | Failed

  /** One pass of the loop body for line `i`: a timestamp line sets the
      timestamp, any other line from index 3 on is appended to the text, and a
      timestamp that does not parse stops everything. */
  function Advance(st: ScanState, i: nat, line: string, parse: Parser): ScanState
  {
    if st.Failed? then Failed
    else if IsTimestampLine(line) then
      var t := parse(TimestampArgument(line));
      if t.None? then Failed else Scanning(t, st.text)
    else if i >= 3 then Scanning(st.timestamp, st.text + line)
    else st
  }

  /** The state after the loop has seen `lines`. */
  function LegacyScan(lines: seq<string>, parse: Parser): ScanState
  {
    if lines == [] then Scanning(None, "")
    else Advance(LegacyScan(lines[..|lines| - 1], parse), |lines| - 1, lines[|lines| - 1], parse)
  }

  /** The lines that make up the text: from index 3 on, all but timestamp lines. */
  function TextLines(lines: seq<string>): seq<string>
  {
    if lines == [] then []
    else
      var i := |lines| - 1;
      TextLines(lines[..i]) + if i >= 3 && !IsTimestampLine(lines[i]) then [lines[i]] else []
  }

  /** The outcome of reading a legacy file: None when it raises. */
  function ParseLegacy(lines: seq<string>, parse: Parser): Option<Legacy>
  {
    match LegacyScan(lines, parse)
    case Failed => None
    case Scanning(t, text) => Some(Legacy(t, Strip(text)))
  }

  /** The loop of `get_generation_history` over the lines of `request.txt`. */
  method ParseRequestTxt(lines: seq<string>, parse: Parser) returns (r: Option<Legacy>)
    ensures r == ParseLegacy(lines, parse)
  {
    var timestamp: Option<nat> := None;
    var text := "";
    for i := 0 to |lines|
      invariant LegacyScan(lines[..i], parse) == Scanning(timestamp, text)
    {
      var line := lines[i];
      ScanStep(lines, i, parse);
      if IsTimestampLine(line) {
        var t := parse(TimestampArgument(line));
        if t.None? {
          FailureIsFinal(lines, i + 1, parse);
          assert lines[..|lines|] == lines;
          return None;
        }
        timestamp := t;
      } else if i >= 3 {
        text := text + line;
      }
    }
    assert lines[..|lines|] == lines;
    r := Some(Legacy(timestamp, Strip(text)));
  }

  /** One more line for the scan. */
  lemma ScanStep(lines: seq<string>, i: nat, parse: Parser)
    requires i < |lines|
    ensures LegacyScan(lines[..i + 1], parse) == Advance(LegacyScan(lines[..i], parse), i, lines[i], parse)
  {
    assert lines[..i + 1][..i] == lines[..i];
  }

  /** Once the loop has raised, later lines change nothing. */
  lemma {:induction false} FailureIsFinal(lines: seq<string>, n: nat, parse: Parser)
    requires n <= |lines|
    requires LegacyScan(lines[..n], parse).Failed?
    ensures LegacyScan(lines, parse).Failed?
    decreases |lines| - n
  {
    if n < |lines| {
      assert lines[..n + 1][..n] == lines[..n];
      FailureIsFinal(lines, n + 1, parse);
    } else {
      assert lines[..n] == lines;
    }
  }

  /** Reading fails exactly when some timestamp line does not parse. */
  lemma {:induction false} LegacyFailsIff(lines: seq<string>, parse: Parser)
    ensures ParseLegacy(lines, parse).None? <==> exists i :: 0 <= i < |lines| && BadTimestampAt(lines, i, parse)
  {
    ScanFailsIff(lines, parse);
  }

  lemma ScanFailsIff(lines: seq<string>, parse: Parser)
    ensures LegacyScan(lines, parse).Failed? <==> exists i :: 0 <= i < |lines| && BadTimestampAt(lines, i, parse)
  {
    if LegacyScan(lines, parse).Failed? {
      var i := BadFromFailed(lines, parse);
    }
    if exists i :: 0 <= i < |lines| && BadTimestampAt(lines, i, parse) {
      var i :| 0 <= i < |lines| && BadTimestampAt(lines, i, parse);
      FailedFromBad(lines, i, parse);
    }
  }

  /** A scan that failed met a bad timestamp line. */
  lemma {:induction false} BadFromFailed(lines: seq<string>, parse: Parser) returns (i: int)
    requires LegacyScan(lines, parse).Failed?
    ensures 0 <= i < |lines| && BadTimestampAt(lines, i, parse)
  {
    var n := |lines| - 1;
    var init := lines[..n];
    FailsStep(lines, parse);
    if LegacyScan(init, parse).Failed? {
      i := BadFromFailed(init, parse);
      BadEarlier(lines, init, i, parse);
    } else {
      i := n;
    }
  }

  /** A bad timestamp line makes the scan fail. */
  lemma {:induction false} FailedFromBad(lines: seq<string>, i: int, parse: Parser)
    requires 0 <= i < |lines| && BadTimestampAt(lines, i, parse)
    ensures LegacyScan(lines, parse).Failed?
  {
    var n := |lines| - 1;
    var init := lines[..n];
    FailsStep(lines, parse);
    if i < n {
      BadEarlier(lines, init, i, parse);
      FailedFromBad(init, i, parse);
    }
  }

  /** The last line fails the scan exactly when it is a bad timestamp line. */
  lemma FailsStep(lines: seq<string>, parse: Parser)
    requires lines != []
    ensures LegacyScan(lines, parse).Failed? <==>
      LegacyScan(lines[..|lines| - 1], parse).Failed? || BadTimestampAt(lines, |lines| - 1, parse)
  {
    var n := |lines| - 1;
    assert LegacyScan(lines, parse) == Advance(LegacyScan(lines[..n], parse), n, lines[n], parse);
  }

  /** Dropping the last line leaves every earlier line as it was. */
  lemma BadEarlier(lines: seq<string>, init: seq<string>, i: int, parse: Parser)
    requires lines != [] && init == lines[..|lines| - 1] && 0 <= i < |init|
    ensures BadTimestampAt(lines, i, parse) == BadTimestampAt(init, i, parse)
  {
    assert lines[i] == init[i];
  }

  /** The text is the concatenation of the text lines, stripped once at the end. */
  lemma {:induction false} LegacyText(lines: seq<string>, parse: Parser)
    requires ParseLegacy(lines, parse).Some?
    ensures ParseLegacy(lines, parse).value.text == Strip(Concat(TextLines(lines)))
  {
    ScanText(lines, parse);
  }

  lemma {:induction false} ScanText(lines: seq<string>, parse: Parser)
    requires LegacyScan(lines, parse).Scanning?
    ensures LegacyScan(lines, parse).text == Concat(TextLines(lines))
  {
    if lines != [] {
      var n := |lines| - 1;
      var init := lines[..n];
      ScanText(init, parse);
      if n >= 3 && !IsTimestampLine(lines[n]) {
        assert TextLines(lines) == TextLines(init) + [lines[n]];
        assert Concat(TextLines(lines)) == Concat(TextLines(init)) + lines[n];
      } else {
        assert TextLines(lines) == TextLines(init);
      }
    }
  }

  /** `lines[i]` is the last timestamp line. */
  predicate LastTimestampLine(lines: seq<string>, i: int)
  {
    0 <= i < |lines| && IsTimestampLine(lines[i]) &&
    forall j :: i < j < |lines| ==> !IsTimestampLine(lines[j])
  }

  /** The timestamp is absent exactly when no line is a timestamp line, and
      otherwise is the value of the last timestamp line. */
  lemma LegacyTimestamp(lines: seq<string>, parse: Parser)
    requires ParseLegacy(lines, parse).Some?
    ensures var t := ParseLegacy(lines, parse).value.timestamp;
      (t.None? <==> forall i :: 0 <= i < |lines| ==> !IsTimestampLine(lines[i])) &&
      (t.Some? ==> exists i :: LastTimestampLine(lines, i) && t == parse(TimestampArgument(lines[i])))
  {
    ScanTimestampAbsent(lines, parse);
    if LegacyScan(lines, parse).timestamp.Some? {
      var i := ScanTimestampLast(lines, parse);
    }
  }

  lemma {:induction false} ScanTimestampAbsent(lines: seq<string>, parse: Parser)
    requires LegacyScan(lines, parse).Scanning?
    ensures LegacyScan(lines, parse).timestamp.None? <==>
      forall i :: 0 <= i < |lines| ==> !IsTimestampLine(lines[i])
  {
    if lines != [] {
      var n := |lines| - 1;
      var init := lines[..n];
      ScanTimestampAbsent(init, parse);
      assert forall i :: 0 <= i < n ==> lines[i] == init[i];
    }
  }

  lemma {:induction false} ScanTimestampLast(lines: seq<string>, parse: Parser) returns (i: int)
    requires LegacyScan(lines, parse).Scanning? && LegacyScan(lines, parse).timestamp.Some?
    ensures LastTimestampLine(lines, i)
    ensures LegacyScan(lines, parse).timestamp == parse(TimestampArgument(lines[i]))
  {
    var n := |lines| - 1;
    var init := lines[..n];
    if IsTimestampLine(lines[n]) {
      i := n;
    } else {
      i := ScanTimestampLast(init, parse);
      assert lines[i] == init[i];
      forall j | i < j < |lines| ensures !IsTimestampLine(lines[j]) {
        if j < n {
          assert lines[j] == init[j];
        }
      }
    }
  }

  /** A timestamp line that holds the prefix once yields its stripped remainder. */
  lemma TimestampOfPlainLine(rest: string)
    requires !Contains(rest, TimestampPrefix)
    ensures TimestampArgument(TimestampPrefix + rest) == Strip(rest)
  {
    RemoveLeading(TimestampPrefix, rest);
  }

  // ---------------------------------------------------------------------------
  // One folder

  /** The JSON branch: `fromisoformat(data["timestamp"])`, `data["text"]`,
      `data.get("provider_settings", [])`; a missing field or a bad timestamp
      raises, and the folder is skipped. */
  function ReadJson(f: Folder, doc: JsonRequest, parse: Parser): Option<Generation>
  {
    if doc.timestamp.None? then None
    else
      var t := parse(doc.timestamp.value);
      if t.None? || doc.text.None? then None
      else Some(Generation(f.name, f.path, t, doc.text.value, doc.providerSettings.GetOr([])))
  }

  /** The entry a folder contributes: only directories count, `request.json`
      is used whenever it exists (a broken one skips the folder), and
      `request.txt` only when there is no `request.json`. */
  function ReadFolder(f: Folder, parse: Parser): Option<Generation>
  {
    if !f.isDir then None
    else match f.requestJson
      case Loaded(doc) => ReadJson(f, doc, parse)
      case Unreadable => None
      case Missing =>
        match f.requestTxt
        case Loaded(lines) => LegacyEntry(f, ParseLegacy(lines, parse))
        case _ => None
  }

  /** The legacy branch: the entry of a `request.txt` that reads back, with
      no settings; a file that raises skips the folder. */
  function LegacyEntry(f: Folder, legacy: Option<Legacy>): Option<Generation>
  {
    match legacy
    case Some(l) => Some(Generation(f.name, f.path, l.timestamp, l.text, []))
    case None => None
  }

  /** What a folder yields: the uuid is the folder's name and the path its
      path; JSON entries always carry a timestamp; legacy entries carry no
      settings; a folder with an existing `request.json` is never read
      through its `request.txt`. */
  lemma ReadFolderShape(f: Folder, parse: Parser)
    requires ReadFolder(f, parse).Some?
    ensures var g := ReadFolder(f, parse).value;
      f.isDir && g.uuid == f.name && g.folder == f.path &&
      !f.requestJson.Unreadable? &&
      (f.requestJson.Loaded? ==>
         g.timestamp.Some? && g.timestamp == parse(f.requestJson.content.timestamp.value) &&
         Some(g.text) == f.requestJson.content.text) &&
      (f.requestJson.Missing? ==>
         f.requestTxt.Loaded? && g.providerSettings == [] &&
         ParseLegacy(f.requestTxt.content, parse) == Some(Legacy(g.timestamp, g.text)))
  {
  }

  /** A directory whose `request.json` decodes with a parsable timestamp and
      a text yields that entry. */
  lemma JsonFolderYields(f: Folder, parse: Parser)
    requires f.isDir && f.requestJson.Loaded?
    requires f.requestJson.content.timestamp.Some? && parse(f.requestJson.content.timestamp.value).Some?
    requires f.requestJson.content.text.Some?
    ensures var doc := f.requestJson.content;
      ReadFolder(f, parse) ==
        Some(Generation(f.name, f.path, parse(doc.timestamp.value), doc.text.value, doc.providerSettings.GetOr([])))
  {
  }

  /** A directory without a `request.json` whose `request.txt` reads back
      yields the legacy entry, with no settings and with whatever timestamp
      the file has, none included. */
  lemma LegacyFolderYields(f: Folder, lines: seq<string>, parse: Parser, l: Legacy)
    requires f.isDir && f.requestJson.Missing? && f.requestTxt == Loaded(lines)
    requires ParseLegacy(lines, parse) == Some(l)
    ensures ReadFolder(f, parse) == Some(Generation(f.name, f.path, l.timestamp, l.text, []))
  {
    assert LegacyEntry(f, Some(l)) == Some(Generation(f.name, f.path, l.timestamp, l.text, []));
  }

  /** A legacy `request.txt` without any timestamp line always reads back:
      the folder yields an entry with no timestamp, which sorts as the
      oldest, and with the text lines joined and stripped. */
  lemma LegacyWithoutTimestamp(f: Folder, parse: Parser)
    requires f.isDir && f.requestJson.Missing? && f.requestTxt.Loaded?
    requires forall i :: 0 <= i < |f.requestTxt.content| ==> !IsTimestampLine(f.requestTxt.content[i])
    ensures ReadFolder(f, parse).Some?
    ensures var g := ReadFolder(f, parse).value;
      g.timestamp.None? && Key(g) == 0 && g.text == Strip(Concat(TextLines(f.requestTxt.content)))
  {
    var lines := f.requestTxt.content;
    ScanFailsIff(lines, parse);
    LegacyTimestamp(lines, parse);
    LegacyText(lines, parse);
    LegacyFolderYields(f, lines, parse, ParseLegacy(lines, parse).value);
  }

  /** The entries of `folders`, in `iterdir` order. */
  function Collect(folders: seq<Folder>, parse: Parser): seq<Generation>
  {
    if folders == [] then []
    else
      var n := |folders| - 1;
      var g := ReadFolder(folders[n], parse);
      Collect(folders[..n], parse) + if g.Some? then [g.value] else []
  }

  /** One more folder for the collection. */
  lemma CollectStep(folders: seq<Folder>, i: nat, parse: Parser)
    requires i < |folders|
    ensures var g := ReadFolder(folders[i], parse);
      Collect(folders[..i + 1], parse) == Collect(folders[..i], parse) + if g.Some? then [g.value] else []
  {
    assert folders[..i + 1][..i] == folders[..i];
  }

  /** An entry is collected exactly when some folder yields it. */
  lemma {:induction false} CollectMembers(folders: seq<Folder>, parse: Parser, g: Generation)
    ensures g in Collect(folders, parse) <==>
      exists i :: 0 <= i < |folders| && ReadFolder(folders[i], parse) == Some(g)
  {
    if folders != [] {
      var n := |folders| - 1;
      var init := folders[..n];
      CollectMembers(init, parse, g);
      forall i | 0 <= i < n ensures folders[i] == init[i] {
      }
      if g in Collect(folders, parse) && g !in Collect(init, parse) {
        assert ReadFolder(folders[n], parse) == Some(g);
      }
    }
  }

  /** Each folder yields at most one entry. */
  lemma {:induction false} CollectLength(folders: seq<Folder>, parse: Parser)
    ensures |Collect(folders, parse)| <= |folders|
  {
    if folders != [] {
      CollectLength(folders[..|folders| - 1], parse);
    }
  }

  // ---------------------------------------------------------------------------
  // Newest first

  /** The sort key: the timestamp, or `datetime.min` when there is none. */
  function Key(g: Generation): nat
  {
    g.timestamp.GetOr(0)
  }

  predicate NewestFirst(gs: seq<Generation>)
  {
    forall i, j :: 0 <= i < j < |gs| ==> Key(gs[i]) >= Key(gs[j])
  }

  /** The entries with a given key, in order. */
  function WithKey(gs: seq<Generation>, k: nat): seq<Generation>
  {
    if gs == [] then []
    else
      var n := |gs| - 1;
      WithKey(gs[..n], k) + if Key(gs[n]) == k then [gs[n]] else []
  }

  /** Places `g` after every entry at least as new as it. */
  function Insert(g: Generation, gs: seq<Generation>): seq<Generation>
  {
    if gs == [] then [g]
    else if Key(gs[0]) >= Key(g) then [gs[0]] + Insert(g, gs[1..])
    else [g] + gs
  }

  /** `sort(key=..., reverse=True)`: a stable sort by descending key. */
  function SortNewestFirst(gs: seq<Generation>): seq<Generation>
  {
    if gs == [] then []
    else Insert(gs[|gs| - 1], SortNewestFirst(gs[..|gs| - 1]))
  }

  /** Insertion adds exactly `g`. */
  lemma {:induction false} InsertMultiset(g: Generation, gs: seq<Generation>)
    ensures multiset(Insert(g, gs)) == multiset(gs) + multiset{g}
    ensures |Insert(g, gs)| == |gs| + 1
  {
    if gs != [] && Key(gs[0]) >= Key(g) {
      InsertMultiset(g, gs[1..]);
      assert gs == [gs[0]] + gs[1..];
    }
  }

  /** Insertion keeps a sequence newest first, and its head is `g` or the old head. */
  lemma {:induction false} InsertSorted(g: Generation, gs: seq<Generation>)
    requires NewestFirst(gs)
    ensures NewestFirst(Insert(g, gs))
    ensures Insert(g, gs) != [] && Insert(g, gs)[0] in {g} + (if gs == [] then {} else {gs[0]})
  {
    var r := Insert(g, gs);
    if gs != [] && Key(gs[0]) >= Key(g) {
      var tail := gs[1..];
      InsertSorted(g, tail);
      var it := Insert(g, tail);
      assert r == [gs[0]] + it;
      assert Key(it[0]) <= Key(gs[0]) by {
        if it[0] != g {
          assert it[0] == gs[1];
        }
      }
      forall i, j | 0 <= i < j < |r| ensures Key(r[i]) >= Key(r[j]) {
        assert r[j] == it[j - 1];
        if i == 0 {
          assert j - 1 == 0 || Key(it[0]) >= Key(it[j - 1]);
        } else {
          assert r[i] == it[i - 1];
        }
      }
    } else if gs != [] {
      assert r == [g] + gs;
      forall i, j | 0 <= i < j < |r| ensures Key(r[i]) >= Key(r[j]) {
        assert r[j] == gs[j - 1];
        if i > 0 {
          assert r[i] == gs[i - 1];
        } else {
          assert j - 1 == 0 || Key(gs[0]) >= Key(gs[j - 1]);
        }
      }
    }
  }

  /** Insertion puts `g` after every entry with its key. */
  /** Dropping the newest entry keeps the rest newest first. */
  lemma SortedTail(gs: seq<Generation>)
    requires gs != [] && NewestFirst(gs)
    ensures NewestFirst(gs[1..])
  {
    forall i, j | 0 <= i < j < |gs| - 1
      ensures Key(gs[1..][i]) >= Key(gs[1..][j])
    {
      assert gs[1..][i] == gs[i + 1] && gs[1..][j] == gs[j + 1];
    }
  }

  /** When `g` goes behind the first entry, the entries with key `k` keep
      the first one in front of what the insertion into the rest gives. */
  lemma InsertBehindHead(g: Generation, gs: seq<Generation>, k: nat)
    requires gs != [] && Key(gs[0]) >= Key(g)
    requires WithKey(Insert(g, gs[1..]), k) == WithKey(gs[1..], k) + if Key(g) == k then [g] else []
    ensures WithKey(Insert(g, gs), k) == WithKey(gs, k) + if Key(g) == k then [g] else []
  {
    var tail := gs[1..];
    var head := if Key(gs[0]) == k then [gs[0]] else [];
    var last := if Key(g) == k then [g] else [];
    assert Insert(g, gs) == [gs[0]] + Insert(g, tail);
    WithKeyCons(gs[0], Insert(g, tail), k);
    WithKeyCons(gs[0], tail, k);
    assert gs == [gs[0]] + tail;
    AppendAssoc(head, WithKey(tail, k), last);
  }

  lemma {:induction false} InsertWithKey(g: Generation, gs: seq<Generation>, k: nat)
    requires NewestFirst(gs)
    ensures WithKey(Insert(g, gs), k) == WithKey(gs, k) + if Key(g) == k then [g] else []
  {
    var r := Insert(g, gs);
    if gs == [] {
      assert r[..0] == [];
    } else if Key(gs[0]) >= Key(g) {
      SortedTail(gs);
      InsertWithKey(g, gs[1..], k);
      InsertBehindHead(g, gs, k);
    } else {
      assert r == [g] + gs;
      WithKeyCons(g, gs, k);
      if Key(g) == k {
        WithKeyNone(gs, k);
        assert WithKey(r, k) == [g] + [];
      } else {
        assert WithKey(r, k) == [] + WithKey(gs, k);
      }
    }
  }

  lemma AppendAssoc<T>(a: seq<T>, b: seq<T>, c: seq<T>)
    ensures a + (b + c) == (a + b) + c
  {
  }

  lemma {:induction false} WithKeyCons(x: Generation, gs: seq<Generation>, k: nat)
    ensures WithKey([x] + gs, k) == (if Key(x) == k then [x] else []) + WithKey(gs, k)
    decreases |gs|
  {
    var s := [x] + gs;
    if gs != [] {
      var n := |gs| - 1;
      assert s[..|s| - 1] == [x] + gs[..n];
      assert s[|s| - 1] == gs[n];
      WithKeyCons(x, gs[..n], k);
    } else {
      assert s[..0] == [];
    }
  }

  /** No entry of a newest-first sequence is newer than its first. */
  lemma {:induction false} WithKeyNone(gs: seq<Generation>, k: nat)
    requires NewestFirst(gs) && gs != [] && Key(gs[0]) < k
    ensures WithKey(gs, k) == []
    decreases |gs|
  {
    var n := |gs| - 1;
    if n > 0 {
      WithKeyNone(gs[..n], k);
    }
    assert Key(gs[n]) <= Key(gs[0]);
  }

  /** The sort orders newest first, keeps every entry, and keeps entries with
      equal keys in their original order. */
  lemma SortFacts(gs: seq<Generation>)
    ensures NewestFirst(SortNewestFirst(gs))
    ensures multiset(SortNewestFirst(gs)) == multiset(gs)
    ensures |SortNewestFirst(gs)| == |gs|
    ensures forall k :: WithKey(SortNewestFirst(gs), k) == WithKey(gs, k)
  {
    SortSorted(gs);
    SortPermutes(gs);
    forall k ensures WithKey(SortNewestFirst(gs), k) == WithKey(gs, k) {
      SortStable(gs, k);
    }
  }

  lemma {:induction false} SortSorted(gs: seq<Generation>)
    ensures NewestFirst(SortNewestFirst(gs))
  {
    if gs != [] {
      var n := |gs| - 1;
      SortSorted(gs[..n]);
      InsertSorted(gs[n], SortNewestFirst(gs[..n]));
    }
  }

  lemma SortPermutes(gs: seq<Generation>)
    ensures multiset(SortNewestFirst(gs)) == multiset(gs)
    ensures |SortNewestFirst(gs)| == |gs|
  {
    SortMultiset(gs);
    SortLength(gs);
  }

  lemma {:induction false} SortMultiset(gs: seq<Generation>)
    ensures multiset(SortNewestFirst(gs)) == multiset(gs)
  {
    if gs != [] {
      var n := |gs| - 1;
      var init := gs[..n];
      SortMultiset(init);
      InsertMultiset(gs[n], SortNewestFirst(init));
      assert SortNewestFirst(gs) == Insert(gs[n], SortNewestFirst(init));
      assert gs == init + [gs[n]];
    }
  }

  lemma {:induction false} SortLength(gs: seq<Generation>)
    ensures |SortNewestFirst(gs)| == |gs|
  {
    if gs != [] {
      var n := |gs| - 1;
      SortLength(gs[..n]);
      InsertMultiset(gs[n], SortNewestFirst(gs[..n]));
    }
  }

  lemma {:induction false} SortStable(gs: seq<Generation>, k: nat)
    ensures WithKey(SortNewestFirst(gs), k) == WithKey(gs, k)
  {
    if gs != [] {
      var n := |gs| - 1;
      SortSorted(gs[..n]);
      SortStable(gs[..n], k);
      InsertWithKey(gs[n], SortNewestFirst(gs[..n]), k);
    }
  }

  // ---------------------------------------------------------------------------
  // The history

  /** Python's `s[:limit]`, where a negative limit counts from the end. */
  function Take<T>(s: seq<T>, limit: int): (r: seq<T>)
    ensures |r| <= |s| && r == s[..|r|]
  {
    if limit >= 0 then s[..if limit < |s| then limit else |s|]
    else s[..if |s| + limit > 0 then |s| + limit else 0]
  }

  /** The history the data folder yields. */
  function HistoryOf(dataDirExists: bool, folders: seq<Folder>, parse: Parser, limit: int): seq<Generation>
  {
    if !dataDirExists then [] else Take(SortNewestFirst(Collect(folders, parse)), limit)
  }

  /** `get_generation_history(limit)`. */
  method GetGenerationHistory(dataDirExists: bool, folders: seq<Folder>, parse: Parser, limit: int)
    returns (history: seq<Generation>)
    ensures history == HistoryOf(dataDirExists, folders, parse, limit)
  {
    if !dataDirExists {
      return [];
    }
    var generations: seq<Generation> := [];
    for i := 0 to |folders|
      invariant generations == Collect(folders[..i], parse)
    {
      var f := folders[i];
      CollectStep(folders, i, parse);
      var entry: Option<Generation> := None;
      if f.isDir {
        if f.requestJson.Loaded? {
          entry := ReadJson(f, f.requestJson.content, parse);
        } else if f.requestJson.Missing? && f.requestTxt.Loaded? {
          var legacy := ParseRequestTxt(f.requestTxt.content, parse);
          if legacy.Some? {
            entry := Some(Generation(f.name, f.path, legacy.value.timestamp, legacy.value.text, []));
          }
        }
      }
      assert entry == ReadFolder(f, parse);
      if entry.Some? {
        generations := generations + [entry.value];
      }
    }
    assert folders[..|folders|] == folders;
    generations := SortNewestFirst(generations);
    history := Take(generations, limit);
  }

  /** The history is ordered newest first, holds `limit` entries or all of
      them when there are fewer, holds only entries some folder yields, and
      every entry it leaves out is no newer than any it shows. */
  lemma HistoryFacts(dataDirExists: bool, folders: seq<Folder>, parse: Parser, limit: int)
    requires dataDirExists && limit >= 0
    ensures var h := HistoryOf(dataDirExists, folders, parse, limit);
      var all := Collect(folders, parse);
      NewestFirst(h) &&
      |h| == (if limit < |all| then limit else |all|) &&
      multiset(h) <= multiset(all) &&
      forall g, x :: g in h && x in multiset(all) - multiset(h) ==> Key(g) >= Key(x)
  {
    var all := Collect(folders, parse);
    var sorted := SortNewestFirst(all);
    SortFacts(all);
    PrefixKeepsNewest(sorted, |HistoryOf(dataDirExists, folders, parse, limit)|);
  }

  /** A prefix of a newest-first sequence is newest first, and none of the
      entries after it is newer than any entry in it. */
  lemma PrefixKeepsNewest(sorted: seq<Generation>, m: nat)
    requires NewestFirst(sorted) && m <= |sorted|
    ensures NewestFirst(sorted[..m])
    ensures multiset(sorted[..m]) <= multiset(sorted)
    ensures forall g, x :: g in sorted[..m] && x in multiset(sorted) - multiset(sorted[..m]) ==> Key(g) >= Key(x)
  {
    var h := sorted[..m];
    assert sorted == h + sorted[m..];
    assert multiset(sorted) == multiset(h) + multiset(sorted[m..]);
    forall g, x | g in h && x in multiset(sorted) - multiset(h) ensures Key(g) >= Key(x) {
      var i :| 0 <= i < m && h[i] == g;
      assert x in multiset(sorted[m..]);
      var j :| 0 <= j < |sorted| - m && sorted[m..][j] == x;
      assert sorted[i] == g && sorted[m + j] == x;
    }
  }

  /** With no data folder, or with a data folder of plain files, there is no history. */
  lemma EmptyHistory(dataDirExists: bool, folders: seq<Folder>, parse: Parser, limit: int)
    requires !dataDirExists || forall i :: 0 <= i < |folders| ==> !folders[i].isDir
    ensures HistoryOf(dataDirExists, folders, parse, limit) == []
  {
    if dataDirExists {
      CollectWithoutDirectories(folders, parse);
    }
  }

  lemma {:induction false} CollectWithoutDirectories(folders: seq<Folder>, parse: Parser)
    requires forall i :: 0 <= i < |folders| ==> !folders[i].isDir
    ensures Collect(folders, parse) == []
  {
    if folders != [] {
      var n := |folders| - 1;
      assert forall i :: 0 <= i < n ==> folders[..n][i] == folders[i];
      CollectWithoutDirectories(folders[..n], parse);
    }
  }

  /** Called with its default limit, the history shows the five newest
      entries, or all of them when there are fewer. */
  lemma DefaultHistory(folders: seq<Folder>, parse: Parser)
    ensures var h := HistoryOf(true, folders, parse, DefaultLimit);
      var n := |Collect(folders, parse)|;
      |h| == (if n < 5 then n else 5) && NewestFirst(h)
  {
    HistoryFacts(true, folders, parse, DefaultLimit);
  }

  /** A negative limit drops that many of the oldest entries. */
  lemma NegativeLimit(dataDirExists: bool, folders: seq<Folder>, parse: Parser, limit: int)
    requires dataDirExists && limit < 0
    ensures var n := |Collect(folders, parse)|;
      |HistoryOf(dataDirExists, folders, parse, limit)| == if n + limit > 0 then n + limit else 0
  {
    SortFacts(Collect(folders, parse));
  }
}
