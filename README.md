# tts-evaluation, modelled in Dafny

tts-evaluation is a Streamlit tool for comparing text-to-speech services.
The user types a text, optionally with emotion tags such as
`<tag>laughter</tag>`. Every provider with an API key then synthesizes the
text. Each audio file is saved in a per-request folder under `data/`, and
past requests can be browsed again.

This project models the deterministic core of that tool:

- **Base** (`base.dfy`) covers `validate_api_key` and the `settings` record
  that the adapters report.
- **Cartesia** and **ElevenLabs** (`cartesia.dfy`, `elevenlabs.dfy`) cover
  the two adapters that can emote:
  - their defaults and constructor (`model or DEFAULT`);
  - `can_emote`;
  - `_process_emotion_tags` with its `replace_tag`;
  - the request each one builds (ElevenLabs: URL, header and `output_format`).
- **EmotionTags** (`emotion_tags.dfy`) models the regular-expression
  substitution both adapters run,
  `re.sub(r"<tag>(.*?)</tag>", repl, text)`:
  - a scan splits the text into literal characters and matched spans;
  - the lazy group never crosses a line feed;
  - the substitution is not scanned again;
  - a rendering of the pieces gives the output.
- **Registry** (`registry.dfy`) models `create_providers`: an insertion-ordered
  dictionary, as a sequence of (name, provider) pairs, holding one entry per
  truthy key.
- **Audio** (`audio.dfy`) covers three functions:
  - `get_audio_format`, which sniffs RIFF/WAVE, ID3 and the MPEG frame sync;
  - the file name that `save_audio_permanent` derives from a provider name;
  - the folder and record that `create_request_folder` builds.
- **Generation** (`generation.dfy`) models the "Generate Speech" action of
  `main.py`:
  - the empty-text guard;
  - the settings list;
  - the request folder;
  - the per-provider loop, which records either the saved file or the error
    message.
- **History** (`history.dfy`) models `get_generation_history`:
  - the JSON branch;
  - the legacy `request.txt` parser, as a method with its loop, proved
    against a function;
  - the stable newest-first sort;
  - Python's `[:limit]` slice.
- **YouTube** (`youtube.dfy`) models `convert_youtube_url_with_timestamp`.
  Its three `re.search` patterns are modelled by a small leftmost matcher with
  a greedy character-class group.

These are parameters of the model:

- the network (what `synthesize` returns or raises);
- the file write (whether it raises);
- `uuid.uuid4()` and `datetime.now()`;
- `datetime.fromisoformat`, as a partial parser of type `string -> Option<nat>`;
- `parse_qs(urlparse(url).query)`, as a query lookup.

Python's `str.strip` and `str.lower` are modelled on ASCII: strip removes
the characters 9–13 and 28–32, and lower maps only `A`–`Z`.

### Where the documentation and the code differ

The model follows the code in each case:

- **Cartesia replacements.** The docstring of Cartesia's
  `_process_emotion_tags` (src/providers/cartesia.py:67-68) says square
  brackets are used for every label. The code writes `[laughter]` only for
  laughter. Every other known label becomes the SSML-like element
  `<emotion value="LABEL" />` (`Cartesia.ReplaceTagCases`).
- **Muted models.** For a model that cannot emote, the spans are deleted and
  only the whole text is stripped. The blanks on both sides of a deleted
  span therefore remain (`Cartesia.MutedKeepsBothBlanks`).
- **Unknown labels.** An unknown label is replaced by nothing, and the
  output is not scanned again. Deleting a span can therefore join a `<`
  before it with a `tag>…</tag>` after it, which leaves a complete tag in the
  text sent to ElevenLabs (`ElevenLabs.UnknownLabelCanLeaveSpan`).
- **Registration.** A provider is registered when its key is truthy, not
  when `validate_api_key` accepts it. A key of blanks registers a provider
  whose own validation fails (`Registry.BlankKeyRegisters`).
- **Timestamp lines.** The legacy parser removes every occurrence of
  `Timestamp:` in a timestamp line, not just the leading one
  (`History.TimestampOfPlainLine` covers a line holding it once).

## Model

| member | source | states |
|---|---|---|
| Base.ValidateApiKey | src/providers/base.py:38-44 | the key is valid exactly when it is present and holds a non-whitespace character |
| Base.RejectedKeys | src/providers/base.py:38-44 | None, the empty key and an all-whitespace key are rejected; a padded key is accepted |
| Cartesia.NewProvider | src/providers/cartesia.py:30-38 | the key is stored; a non-empty model is kept; otherwise the default sonic-3, which can emote |
| Cartesia.EmoteByModel | src/providers/cartesia.py:56-62 | sonic-2 cannot emote; a dated sonic-3 variant can |
| Cartesia.EmotionMapIsIdentity | src/providers/cartesia.py:19-28 | the emotion map's keys are the known labels and each maps to itself |
| Cartesia.ReplaceTagCases | src/providers/cartesia.py:81-87 | laughter becomes `[laughter]`; every other known label becomes `<emotion value="label" />`; an unknown label becomes nothing |
| Cartesia.LaughterInAnyCase | src/providers/cartesia.py:81-87 | laughter in any letter case, with blanks around it, becomes the lower-case bracketed tag |
| Cartesia.EmotionInAnyCase | src/providers/cartesia.py:81-87 | any other known label, in any case and padding, becomes the emotion element with the lower-case label |
| Cartesia.TagFreeTextOnlyStripped | src/providers/cartesia.py:64-104 | text without a complete span is only stripped, for every model, and is the transcript sent |
| Cartesia.MutedTranscriptInsertsNothing | src/providers/cartesia.py:76-78 | a model that cannot emote sends a transcript that is a subsequence of the text |
| Cartesia.EmotingOneSpan | src/providers/cartesia.py:64-89 | with an emoting model, one span is replaced by its replacement and the surrounding text is kept, then stripped |
| Cartesia.MutedOneSpan | src/providers/cartesia.py:76-78 | with a muted model, one span is deleted and the surrounding text is kept, then stripped |
| Cartesia.MutedKeepsBothBlanks | src/providers/cartesia.py:76-78 | deleting a span keeps the blanks on both of its sides |
| ElevenLabs.NewProvider | src/providers/elevenlabs.py:30-38 | the key is stored; a non-empty model is kept; otherwise the default eleven_v3, which can emote |
| ElevenLabs.EmoteByModel | src/providers/elevenlabs.py:56-62 | eleven_flash_v2_5 cannot emote; the default model can |
| ElevenLabs.EmotionMapIsIdentity | src/providers/elevenlabs.py:19-28 | the emotion map's keys are the known labels and each maps to itself |
| ElevenLabs.ReplaceTag | src/providers/elevenlabs.py:81-85 | a known label becomes `[label]`; the result is empty exactly when the label is unknown |
| ElevenLabs.KnownLabelInAnyCase | src/providers/elevenlabs.py:81-85 | a known label in any letter case, with blanks around it, becomes the lower-case bracketed tag |
| ElevenLabs.OutputFormatValue | src/providers/elevenlabs.py:13-16 | the output format query parameter reads `mp3_44100_128` |
| ElevenLabs.SampleRateDigits | src/providers/elevenlabs.py:15 | the default sample rate is written as `44100` |
| ElevenLabs.BitRateDigits | src/providers/elevenlabs.py:16 | the default bit rate is written as `128` |
| ElevenLabs.RequestShape | src/providers/elevenlabs.py:102-116 | the request goes to the default voice's endpoint with the provider's key, model, processed text and output format |
| ElevenLabs.TagFreeTextOnlyStripped | src/providers/elevenlabs.py:64-87 | text without a complete span is only stripped, for every model |
| ElevenLabs.MutedTranscriptInsertsNothing | src/providers/elevenlabs.py:76-78 | a muted model's output is a subsequence of its input |
| ElevenLabs.EmotingOneSpan | src/providers/elevenlabs.py:64-87 | with an emoting model, one span is replaced and the rest kept, then stripped |
| ElevenLabs.MutedOneSpan | src/providers/elevenlabs.py:76-78 | with a muted model, one span is deleted and the rest kept, then stripped |
| ElevenLabs.UnknownLabelCanLeaveSpan | src/providers/elevenlabs.py:80-87 | deleting an unknown label can leave a complete tag span in the processed text |
| ElevenLabs.UnknownLabelTranscript | src/providers/elevenlabs.py:80-87 | the exact processed text in that case: `<tag>x</tag>` |
| EmotionTags.LabelIgnoresCase | src/providers/cartesia.py:82 | labels that differ only in letter case are read as the same label |
| EmotionTags.LabelIgnoresPadding | src/providers/cartesia.py:82 | blanks around a label are ignored and the label is read in lower case |
| EmotionTags.NormalizedLabelIsCanonical | src/providers/elevenlabs.py:82 | normalizing a normalized label changes nothing |
| EmotionTags.FindClose | src/providers/cartesia.py:89 | the close tag found is the first one reachable without crossing a line feed |
| EmotionTags.FindCloseFirst | src/providers/cartesia.py:89 | the close search finds exactly the first reachable close tag |
| EmotionTags.MatchAt | src/providers/cartesia.py:89 | a match starts with the open tag, ends with a close tag, and captures a body the lazy group can capture |
| EmotionTags.MatchSpan | src/providers/cartesia.py:89 | `<tag>BODY</tag>REST` matches with exactly BODY captured when the body is capturable |
| EmotionTags.Scan | src/providers/cartesia.py:89 | every captured body is one the lazy group can capture |
| EmotionTags.ScanRoundTrip | src/providers/cartesia.py:89 | putting the scanned pieces back together gives the original text |
| EmotionTags.AllPlainIffNoSpan | src/providers/cartesia.py:89 | the scan finds no span exactly when the text holds no open tag followed on its line by a close tag |
| EmotionTags.SubWithoutSpan | src/providers/elevenlabs.py:87 | text with no complete span is returned unchanged, whatever the replacement |
| EmotionTags.EraseIsSubsequence | src/providers/cartesia.py:78 | deleting every span keeps the remaining characters in order |
| EmotionTags.ScanLiteralPrefix | src/providers/cartesia.py:89 | a leading run without `<` is copied as literal characters |
| EmotionTags.ScanSpanPrefix | src/providers/cartesia.py:89 | a leading span with a capturable body is scanned as one span |
| EmotionTags.SubOneSpan | src/providers/cartesia.py:89 | in text with one span between runs without `<`, only the span is replaced |
| EmotionTags.SubLiteralPrefix | src/providers/cartesia.py:89 | a leading run without `<` passes through the substitution unchanged |
| EmotionTags.SubKeepsClose | src/providers/cartesia.py:89 | a lone close tag is literal text |
| EmotionTags.SubAfterAngle | src/providers/cartesia.py:89 | a `<` right before a span is literal, and the span after it is still matched |
| EmotionTags.ErasedSpanJoins | src/providers/elevenlabs.py:87 | the replacement is not rescanned, so deleting a span can join text into a new tag |
| Registry.Build | src/providers/__init__.py:34-47 | the provider built for a backend is of that backend |
| Registry.CreateProviders | src/providers/__init__.py:13-49 | the returned registry is the ordered selection of the providers whose key is truthy |
| Registry.RegistryShape | src/providers/__init__.py:32-49 | a backend is present exactly when its key is truthy; insertion order is kept; at most five entries; each is keyed by its name and holds its own key |
| Registry.SelectComplete | src/providers/__init__.py:34-47 | every backend with a truthy key has an entry |
| Registry.SelectOrdered | src/providers/__init__.py:34-47 | entries follow the order of the `if` statements |
| Registry.NamesDistinct | src/providers/__init__.py:32-49 | no dictionary key occurs twice |
| Registry.NameFromKind | src/providers/cartesia.py:41-43 | different backends have different names |
| Registry.NoKeysNoProviders | src/providers/__init__.py:13-49 | no keys give an empty registry |
| Registry.RegistryDefaults | src/providers/__init__.py:34-47 | providers are built without a model: Cartesia runs sonic-3 and ElevenLabs eleven_v3, both able to emote, and Hume version 2 |
| Registry.BlankKeyRegisters | src/providers/__init__.py:34-35 | a blank key registers a provider whose key validation fails |
| Audio.Header | src/utils/audio.py:51 | the header is the first twelve bytes, or the whole buffer when it is shorter |
| Audio.GetAudioFormat | src/utils/audio.py:42-55 | the format is wav, mp3 or none |
| Audio.WavExactly | src/utils/audio.py:51-52 | wav exactly when the buffer starts with RIFF and WAVE starts within the first 12 bytes |
| Audio.Mp3Exactly | src/utils/audio.py:42-55 | mp3 exactly when the buffer is not a WAV and starts with ID3 or FF FB; None exactly when it is neither |
| Audio.FormatDependsOnHeader | src/utils/audio.py:42-55 | only the first twelve bytes decide the format |
| Audio.WavHeaderDetected | src/utils/audio.py:51-52 | a canonical RIFF/size/WAVE header is wav |
| Audio.WaveTooLate | src/utils/audio.py:51-52 | WAVE past the first twelve bytes is not wav |
| Audio.Id3Detected | src/utils/audio.py:53-54 | an ID3 tag is mp3 |
| Audio.FrameSyncDetected | src/utils/audio.py:53-54 | the FF FB frame sync is mp3 |
| Audio.OtherSyncUnknown | src/utils/audio.py:53-55 | other MPEG sync words are not recognised |
| Audio.ShortBuffersUnknown | src/utils/audio.py:42-55 | empty and one-byte buffers are not recognised |
| Audio.SafeProviderName | src/utils/audio.py:114 | the safe name has the name's length, no space and no upper-case letter |
| Audio.StemOfArtifact | src/utils/audio.py:114-115 | the stem of the saved file's name is the safe provider name |
| Audio.ResultsPageFindsArtifact | main.py:466-472 | the lowered stem of a saved file equals the key the results page builds from the settings name |
| Audio.InworldFilename | src/utils/audio.py:114-115 | "Inworld AI" audio is saved as `inworld_ai.mp3` |
| Audio.LastIndexOf | main.py:472 | the last occurrence of a character, or -1: it locates the last dot that `audio_file.stem` cuts at (and the last separator behind `folder.name`, main.py:58); no later index holds the character |
| Audio.RequestFolderShape | src/utils/audio.py:58-93 | the uuid returned is the folder's last component and the record's uuid; text, settings and timestamp are stored unchanged |
| Generation.SettingsList | main.py:234 | one settings record per provider, in order, each that provider's settings |
| Generation.Names | main.py:274 | the provider names, in registry order |
| Generation.EntryFor | main.py:243-267 | an exception from `synthesize` becomes an error entry with its message; otherwise the format is the detected one or mp3, a failing write becomes an error entry with the write's message, and a successful one a saved entry with that path and format |
| Generation.AudioFilesContents | main.py:243-267 | the keys are exactly the provider names, and each entry depends only on that provider's own attempt |
| Generation.Generate | main.py:213-276 | an adapter without `can_emote` makes the page fail before the button; otherwise blank text shows the warning, and any other text gives exactly the request's folder, record, names and audio entries |
| Generation.CanEmoteIffSettings | main.py:213-234 | the adapters that define `can_emote` are exactly those that define `settings` |
| Generation.UnknownFormatSavedAsMp3 | main.py:250-253 | audio of an unrecognised format is saved as `<name>.mp3` |
| Generation.WavSavedAsWav | main.py:250-258 | a WAV buffer is saved as `<name>.wav` |
| Generation.SavedFileFoundByResultsPage | main.py:466-472 | every saved file is found again by the results page's name lookup |
| Generation.SavedFileName | src/utils/audio.py:114-117 | the saved file's name is the last component of its path |
| Generation.SettingsNamedAfterProvider | src/providers/cartesia.py:45-54 | the settings' name is the provider's name, the registry key |
| Generation.AdaptersWithoutSettingsStopGeneration | main.py:213-234 | a registry holding Inworld AI, Hume or Speechify has an adapter without `can_emote` and cannot build the settings list |
| Generation.SupportedRegistryHasSettings | main.py:213-234 | with only Cartesia and ElevenLabs keys, every adapter has `can_emote`, the settings list can be built and the names are distinct |
| Generation.HistoryReadsBackRequest | main.py:50-59 | a folder written by a generation is read back with its uuid, path, timestamp, text and settings |
| History.ParseRequestTxt | main.py:62-81 | the loop over the lines computes the legacy parse |
| History.FailureIsFinal | main.py:71-81 | once a timestamp fails to parse, reading the file fails |
| History.LegacyFailsIff | main.py:71-81 | reading fails exactly when some timestamp line does not parse |
| History.LegacyText | main.py:71-79 | the text is the non-timestamp lines from index 3 on, joined and then stripped |
| History.LegacyTimestamp | main.py:72-74 | the timestamp is absent exactly when there is no timestamp line, else it is the parse of the last one |
| History.ScanTimestampLast | main.py:72-74 | a timestamp comes from the last timestamp line |
| History.TimestampOfPlainLine | main.py:73 | a line holding the prefix once yields its stripped remainder |
| History.ReadFolderShape | main.py:44-81 | an entry's uuid is the folder's name and its path the folder's path |
| History.JsonFolderYields | main.py:50-59 | a directory whose `request.json` has a parsable timestamp and a text yields that entry |
| History.LegacyFolderYields | main.py:60-81 | a directory without `request.json` whose `request.txt` reads back yields the legacy entry, with no settings, whatever its timestamp |
| History.LegacyWithoutTimestamp | main.py:60-84 | a `request.txt` without timestamp lines always yields an entry with no timestamp, which sorts as the oldest, and the joined, stripped text |
| History.CollectMembers | main.py:44-81 | an entry is collected exactly when some folder yields it |
| History.CollectLength | main.py:44-81 | each folder yields at most one entry |
| History.InsertMultiset | main.py:84 | insertion adds exactly the new entry |
| History.InsertSorted | main.py:84 | insertion keeps the sequence newest first |
| History.InsertWithKey | main.py:84 | insertion places an entry after every earlier entry with its key |
| History.SortFacts | main.py:84 | the sort is newest first, a permutation, and stable for equal timestamps |
| History.Take | main.py:86 | the slice is a prefix of the sequence |
| History.GetGenerationHistory | main.py:30-86 | the method computes the history of the data folder |
| History.HistoryFacts | main.py:30-86 | the history is newest first, of length min(limit, entries), and holds the newest entries |
| History.PrefixKeepsNewest | main.py:84-86 | a prefix of a newest-first sequence keeps the newest entries |
| History.EmptyHistory | main.py:40-41 | with no data folder, or only plain files, the history is empty |
| History.DefaultHistory | main.py:30 | with the default `limit=5`, the history is newest first and holds five entries, or all when there are fewer |
| History.NegativeLimit | main.py:86 | a negative limit drops that many of the oldest entries |
| YouTube.ConvertYoutubeUrl | main.py:344-392 | the result is the link unchanged or an embed link: no video id gives the link unchanged, an id alone the embed link, an id and a time the embed link with `?start=` |
| YouTube.LiteralLead | main.py:363 | a literal pattern lead matches exactly where the literal occurs |
| YouTube.GroupFollowsLiteral | main.py:363-365 | the captured group follows the literal part of the pattern in the link |
| YouTube.ShortLinkReference | main.py:362-369 | for a youtu.be link, the id is a non-empty run without `?` after `youtu.be/`, and the time is digits |
| YouTube.ShortsReference | main.py:379-382 | for a shorts link, the id follows `shorts/` and there is no start time |
| YouTube.OtherLinksUnchanged | main.py:384-392 | any other link is returned unchanged |
| YouTube.WatchLink | main.py:372-376 | a watch link without `t` is rebuilt from its `v` parameter alone |
| YouTube.WatchLinkWithTime | main.py:372-392 | a watch link with non-empty `v` and `t` becomes the embed link with `?start=` and the time |
| YouTube.ShortsLinkConverted | main.py:379-392 | a shorts link whose id is found becomes the embed link with no start time |
| YouTube.WatchLinkWithoutVideo | main.py:372-392 | a watch link without `v` is returned unchanged |
| YouTube.ShortLinkWithTime | main.py:362-392 | `youtu.be/ID?t=N` becomes the embed link with `?start=N` |
| YouTube.ShortLinkWithSharedTime | main.py:362-392 | `youtu.be/ID?si=…&t=N` becomes the embed link with `?start=N` |
| YouTube.ShortLinkTime | main.py:367-369 | the time search finds the digits after `?t=` |
| YouTube.SharedTime | main.py:367-369 | the time search finds the digits after `&t=` |
| YouTube.TimeAfter | main.py:367-369 | the first `?t=` or `&t=` in the link gives the time |
| YouTube.ShortLinkAfterHost | main.py:363-365 | the id is the run after `youtu.be/` up to `?` |
| YouTube.ConvertWithTime | main.py:385-392 | with an id and a time found, the result is the embed link with the start time |
| YouTube.ShortLinkWithoutTime | main.py:362-392 | a youtu.be link whose id is found and that has no time becomes the embed link with no start |
| YouTube.ShortLinkWithoutVideo | main.py:362-392 | a youtu.be link whose id is not found is returned unchanged |
| YouTube.PlainShortLink | main.py:362-392 | `youtu.be/ID` becomes the embed link with no start |
| YouTube.ShortLinkWithOnlyTime | main.py:362-392 | `youtu.be/?t=N` has no id and is returned unchanged |
| YouTube.SearchFindsFirst | main.py:363-367 | the search returns the leftmost match |
| YouTube.RunIs | main.py:363-367 | the greedy group takes the longest run of its character class |

## Left out

- The HTTP calls of all five adapters are left out. `synthesize` is a parameter that returns bytes or raises. The Hume, Inworld AI and Speechify adapters appear only through their names, their stored keys and the Hume default version.
- The Streamlit page layout is left out: widgets, audio players, the preference buttons and `result.json`. Of the results page, only the provider key and the file stem are modelled (main.py:466-472).
- `load_providers_from_env` and the `.env` loading are left out: they only read environment variables.
- The call at main.py:147-158 passes `*_model` keyword arguments that `create_providers` does not accept, so in Python it raises `TypeError`. The model starts from the registry that `create_providers` returns.
- Inworld AI, Hume and Speechify define neither `can_emote` nor `settings`. So the page raises `AttributeError` at main.py:215, where it lists emotion support, before the button is drawn. The model reports this as the `MissingAttribute` outcome instead of an exception.
- `datetime.fromisoformat` and the timestamps it yields are a parameter. The mix of naive and aware datetimes in the sort is not modelled; timestamps are natural numbers and a missing one is 0 (`datetime.min`).
- `parse_qs(urlparse(url).query)` is a parameter. URL decoding of query values is not modelled.
- Python's Unicode `strip`, `lower` and the regular-expression `\d` are modelled on ASCII only.
- History.ReadJson: an explicit JSON `null` for `provider_settings` is not told apart from a missing field (both give an empty list here, while Python keeps `None`); the decoded document is a record of optional fields, so JSON decoding itself is not modelled.
- A `request.txt` that cannot be read or decoded is the `Unreadable` file state, handled like the source's `except: continue`.
- A failure to create the directory in `create_request_folder`, and the `request.json` write, are left out: writing is not modelled.
- `save_audio_temp` and `cleanup_temp_file` are left out: they only handle temporary files.
- Console output (`print`) is left out.
- `iterdir` order is a parameter: the folders are given as a sequence.
- Cartesia.CartesiaProvider.ProcessEmotionTags and ElevenLabs.ElevenLabsProvider.ProcessEmotionTags carry no `ensures` of their own. Their behaviour is stated by the lemmas beside them.
