/**
 * The "Generate Speech" action of main.py: the `can_emote` listing drawn
 * before the button, the empty-text guard, the settings list, the request
 * folder, and the loop that asks every registered provider for audio and
 * records, per provider, either the saved file or the error.  The network call and the file write are parameters: `synthesize`
 * says what a provider's `synthesize(text)` does, `write` whether writing a
 * file raises (and with which message).
 */
module Generation {
  import opened Wrappers
  import opened Text
  import Base
  import Registry
  import Audio
  import History

  /** What one call of `provider.synthesize(text)` does. */
  datatype Attempt = Raised(message: string) | Returned(audio: seq<Audio.byte>)

  /** One value of `audio_files`: `{"path", "format"}` or `{"error"}`. */
  datatype AudioEntry = Saved(path: string, format: string) | Failed(error: string)

  /** What pressing the button leads to. */
  datatype Outcome =
    | EmptyText
    | MissingAttribute
    | Generated(
        uuid: string, folder: string, text: string, providers: seq<string>,
        audioFiles: map<string, AudioEntry>, record: Audio.RequestRecord)

  /** The registry is a dictionary: no name occurs twice. */
  predicate NamesUnique(providers: seq<(string, Registry.Provider)>)
  {
    forall i, j :: 0 <= i < j < |providers| ==> providers[i].0 != providers[j].0
  }

  /** Every provider has a `settings` property; otherwise reading it raises. */
  predicate AllHaveSettings(providers: seq<(string, Registry.Provider)>)
  {
    forall i :: 0 <= i < |providers| ==> providers[i].1.Settings().Some?
  }

  /** Every provider has a `can_emote` property; otherwise drawing the page,
      which lists the emotion support of every provider, raises. */
  predicate AllCanEmote(providers: seq<(string, Registry.Provider)>)
  {
    forall i :: 0 <= i < |providers| ==> providers[i].1.CanEmote().Some?
  }

  /** The adapters that define `can_emote` are exactly those that define
      `settings`. */
  lemma CanEmoteIffSettings(providers: seq<(string, Registry.Provider)>)
    ensures AllCanEmote(providers) <==> AllHaveSettings(providers)
  {
    forall i | 0 <= i < |providers|
      ensures providers[i].1.CanEmote().Some? <==> providers[i].1.Settings().Some?
    {
      match providers[i].1
      case CartesiaProvider(_) =>
      case InworldProvider(_) =>
      case ElevenLabsProvider(_) =>
      case HumeProvider(_, _) =>
      case SpeechifyProvider(_) =>
    }
  }

  /** `[provider.settings for provider in providers.values()]`. */
  function SettingsList(providers: seq<(string, Registry.Provider)>): (r: seq<Base.Settings>)
    requires AllHaveSettings(providers)
    ensures |r| == |providers|
    ensures forall i :: 0 <= i < |r| ==> Some(r[i]) == providers[i].1.Settings()
  {
    seq(|providers|, i requires 0 <= i < |providers| => providers[i].1.Settings().value)
  }

  /** `list(providers.keys())`. */
  function Names(providers: seq<(string, Registry.Provider)>): (r: seq<string>)
    ensures |r| == |providers|
    ensures forall i :: 0 <= i < |r| ==> r[i] == providers[i].0
  {
    seq(|providers|, i requires 0 <= i < |providers| => providers[i].0)
  }

  /** The body of the loop for one provider: an exception from `synthesize`
      or from the write becomes an error entry; otherwise the audio is saved
      under the provider's file name, as "mp3" when its format is not
      recognised. */
  function EntryFor(folder: string, name: string, attempt: Attempt, write: (string, seq<Audio.byte>) -> Option<string>): (r: AudioEntry)
    ensures r.Saved? ==> r.format in {"wav", "mp3"} && r.path == Audio.JoinPath(folder, Audio.ArtifactFilename(name, r.format))
    ensures attempt.Raised? ==> r == Failed(attempt.message)
    ensures attempt.Returned? ==>
      var format := Audio.GetAudioFormat(attempt.audio).GetOr("mp3");
      var path := Audio.JoinPath(folder, Audio.ArtifactFilename(name, format));
      (write(path, attempt.audio).Some? ==> r == Failed(write(path, attempt.audio).value)) &&
      (write(path, attempt.audio).None? ==> r == Saved(path, format))
  {
    match attempt
    case Raised(message) => Failed(message)
    case Returned(audio) =>
      var format := Audio.GetAudioFormat(audio).GetOr("mp3");
      var path := Audio.JoinPath(folder, Audio.ArtifactFilename(name, format));
      match write(path, audio)
      case Some(error) => Failed(error)
      case None => Saved(path, format)
  }

  /** `audio_files` after the loop has run over `providers`: each provider's
      entry stored under its name. */
  function AudioFiles(
    folder: string, providers: seq<(string, Registry.Provider)>, text: string,
    synthesize: (Registry.Provider, string) -> Attempt, write: (string, seq<Audio.byte>) -> Option<string>): map<string, AudioEntry>
  {
    if providers == [] then map[]
    else
      var n := |providers| - 1;
      var (name, provider) := providers[n];
      AudioFiles(folder, providers[..n], text, synthesize, write)[name := EntryFor(folder, name, synthesize(provider, text), write)]
  }

  /** The keys are the provider names, and each provider's entry is the
      outcome of its own attempt alone, whatever the others do. */
  lemma {:induction false} AudioFilesContents(
    folder: string, providers: seq<(string, Registry.Provider)>, text: string,
    synthesize: (Registry.Provider, string) -> Attempt, write: (string, seq<Audio.byte>) -> Option<string>)
    requires NamesUnique(providers)
    ensures var m := AudioFiles(folder, providers, text, synthesize, write);
      (forall n :: n in m <==> n in Names(providers)) &&
      forall i :: 0 <= i < |providers| ==>
        m[providers[i].0] == EntryFor(folder, providers[i].0, synthesize(providers[i].1, text), write)
  {
    if providers != [] {
      var n := |providers| - 1;
      var init := providers[..n];
      assert NamesUnique(init);
      AudioFilesContents(folder, init, text, synthesize, write);
      assert Names(providers) == Names(init) + [providers[n].0];
      forall i | 0 <= i < n ensures providers[i].0 != providers[n].0 && init[i] == providers[i] {
      }
    }
  }

  /** Pressing "Generate Speech" with `text` and the registry `providers`; the
      request folder lands in `cwd/data`, and `uuid` and `timestamp` are what
      `create_request_folder` draws.  The page reads `can_emote` of every
      provider before the button is drawn, so a registry holding an adapter
      without it fails before the blank-text warning can be shown. */
  method Generate(
    text: string, providers: seq<(string, Registry.Provider)>, cwd: string, uuid: string, timestamp: string,
    synthesize: (Registry.Provider, string) -> Attempt, write: (string, seq<Audio.byte>) -> Option<string>)
    returns (outcome: Outcome)
    requires NamesUnique(providers)
    ensures !AllCanEmote(providers) ==> outcome == MissingAttribute
    ensures AllCanEmote(providers) && Strip(text) == [] ==> outcome == EmptyText
    ensures AllCanEmote(providers) && Strip(text) != [] ==>
      AllHaveSettings(providers) && outcome.Generated? &&
      (outcome.uuid, outcome.folder, outcome.record) ==
        Audio.CreateRequestFolder(text, SettingsList(providers), None, cwd, uuid, timestamp) &&
      outcome.text == text && outcome.providers == Names(providers) &&
      outcome.audioFiles == AudioFiles(outcome.folder, providers, text, synthesize, write) &&
      (forall n :: n in outcome.audioFiles <==> n in outcome.providers) &&
      forall i :: 0 <= i < |providers| ==>
        outcome.audioFiles[providers[i].0] ==
          EntryFor(outcome.folder, providers[i].0, synthesize(providers[i].1, text), write)
  {
    if !AllCanEmote(providers) {
      return MissingAttribute;
    }
    if Strip(text) == [] {
      return EmptyText;
    }
    CanEmoteIffSettings(providers);
    var settings := SettingsList(providers);
    var (requestUuid, folder, record) := Audio.CreateRequestFolder(text, settings, None, cwd, uuid, timestamp);
    var audioFiles := SynthesizeAll(folder, providers, text, synthesize, write);
    AudioFilesContents(folder, providers, text, synthesize, write);
    outcome := Generated(requestUuid, folder, text, Names(providers), audioFiles, record);
  }

  /** The loop over the registry, filling `audio_files`. */
  method SynthesizeAll(
    folder: string, providers: seq<(string, Registry.Provider)>, text: string,
    synthesize: (Registry.Provider, string) -> Attempt, write: (string, seq<Audio.byte>) -> Option<string>)
    returns (audioFiles: map<string, AudioEntry>)
    ensures audioFiles == AudioFiles(folder, providers, text, synthesize, write)
  {
    audioFiles := map[];
    for i := 0 to |providers|
      invariant audioFiles == AudioFiles(folder, providers[..i], text, synthesize, write)
    {
      var (name, provider) := providers[i];
      var entry := SaveAudio(folder, name, synthesize(provider, text), write);
      assert providers[..i + 1][..i] == providers[..i];
      audioFiles := audioFiles[name := entry];
    }
    assert providers[..|providers|] == providers;
  }

  /** The `try` block for one provider. */
  method SaveAudio(folder: string, name: string, attempt: Attempt, write: (string, seq<Audio.byte>) -> Option<string>)
    returns (entry: AudioEntry)
    ensures entry == EntryFor(folder, name, attempt, write)
  {
    match attempt {
      case Raised(message) =>
        entry := Failed(message);
      case Returned(audio) =>
        var format := Audio.GetAudioFormat(audio);
        var audioFormat := if format.None? then "mp3" else format.value;
        var path := Audio.JoinPath(folder, Audio.ArtifactFilename(name, audioFormat));
        var error := write(path, audio);
        entry := if error.Some? then Failed(error.value) else Saved(path, audioFormat);
    }
  }

  // ---------------------------------------------------------------------------
  // What the action promises

  /** Audio whose format is not recognised is saved as `<name>.mp3`. */
  lemma UnknownFormatSavedAsMp3(folder: string, name: string, audio: seq<Audio.byte>, write: (string, seq<Audio.byte>) -> Option<string>)
    requires Audio.GetAudioFormat(audio).None?
    requires write(Audio.JoinPath(folder, Audio.ArtifactFilename(name, "mp3")), audio).None?
    ensures EntryFor(folder, name, Returned(audio), write) == Saved(Audio.JoinPath(folder, Audio.ArtifactFilename(name, "mp3")), "mp3")
  {
  }

  /** A WAV buffer is saved as `<name>.wav`. */
  lemma WavSavedAsWav(folder: string, name: string, size: seq<Audio.byte>, rest: seq<Audio.byte>, write: (string, seq<Audio.byte>) -> Option<string>)
    requires |size| == 4
    requires write(Audio.JoinPath(folder, Audio.ArtifactFilename(name, "wav")), Audio.Riff + size + Audio.Wave + rest).None?
    ensures EntryFor(folder, name, Returned(Audio.Riff + size + Audio.Wave + rest), write) ==
      Saved(Audio.JoinPath(folder, Audio.ArtifactFilename(name, "wav")), "wav")
  {
    Audio.WavHeaderDetected(size, rest);
  }

  /** The results page finds every saved file: the file's stem, lowercased,
      is the key it derives from the provider's settings name. */
  lemma SavedFileFoundByResultsPage(
    folder: string, p: Registry.Provider, attempt: Attempt, write: (string, seq<Audio.byte>) -> Option<string>)
    requires p.Settings().Some?
    requires EntryFor(folder, p.Name(), attempt, write).Saved?
    ensures var e := EntryFor(folder, p.Name(), attempt, write);
      Lower(Audio.Stem(Audio.LastComponent(e.path))) == Audio.ResultsKey(p.Settings().value.name)
  {
    var e := EntryFor(folder, p.Name(), attempt, write);
    SettingsNamedAfterProvider(p);
    assert '/' !in p.Name() by {
      assert p.CartesiaProvider? || p.ElevenLabsProvider?;
    }
    SavedFileName(folder, p.Name(), e.format);
    Audio.ResultsPageFindsArtifact(p.Name(), e.format);
  }

  /** The saved file's name is the last component of its path. */
  lemma SavedFileName(folder: string, name: string, format: string)
    requires '/' !in name && (format == "wav" || format == "mp3")
    ensures Audio.LastComponent(Audio.JoinPath(folder, Audio.ArtifactFilename(name, format))) ==
      Audio.ArtifactFilename(name, format)
  {
    var file := Audio.ArtifactFilename(name, format);
    var safe := Audio.SafeProviderName(name);
    forall k | 0 <= k < |file| ensures file[k] != '/' {
      if k < |safe| {
        assert name[k] != '/';
      } else if k > |safe| {
        assert file[k] == format[k - |safe| - 1];
      }
    }
    LastComponentOfJoin(folder, file);
  }

  /** The settings' `name` is the provider's `name`, the registry key. */
  lemma SettingsNamedAfterProvider(p: Registry.Provider)
    requires p.Settings().Some?
    ensures p.Settings().value.name == p.Name() && p.Name() != []
  {
  }

  lemma LastComponentOfJoin(folder: string, file: string)
    requires '/' !in file
    ensures Audio.LastComponent(Audio.JoinPath(folder, file)) == file
  {
    var path := Audio.JoinPath(folder, file);
    var i := |folder|;
    assert path[i] == '/';
    forall k | i < k < |path| ensures path[k] != '/' {
      assert path[k] == file[k - i - 1];
    }
    assert Audio.LastIndexOf(path, '/') == i;
    assert path[i + 1..] == file;
  }

  /** The registry `create_providers` builds always holds an adapter without
      `can_emote` and `settings` once an Inworld, Hume or Speechify key is
      set, so the page fails before any request folder is created. */
  lemma AdaptersWithoutSettingsStopGeneration(keys: Registry.Keys)
    requires Registry.Truthy(keys.inworld) || Registry.Truthy(keys.hume) || Registry.Truthy(keys.speechify)
    ensures !AllHaveSettings(Registry.Select(Registry.Order, keys))
    ensures !AllCanEmote(Registry.Select(Registry.Order, keys))
  {
    Registry.RegistryShape(keys);
    var r := Registry.Select(Registry.Order, keys);
    var k := if Registry.Truthy(keys.inworld) then Registry.InworldKind
      else if Registry.Truthy(keys.hume) then Registry.HumeKind else Registry.SpeechifyKind;
    assert Registry.Truthy(keys.For(k));
    var i :| 0 <= i < |r| && r[i].1.Kind() == k;
    assert r[i].1.Settings().None?;
    assert r[i].1.CanEmote().None?;
  }

  /** With only Cartesia and ElevenLabs keys the page can be drawn, the
      settings list can be built, and the names are distinct. */
  lemma SupportedRegistryHasSettings(keys: Registry.Keys)
    requires !Registry.Truthy(keys.inworld) && !Registry.Truthy(keys.hume) && !Registry.Truthy(keys.speechify)
    ensures AllCanEmote(Registry.Select(Registry.Order, keys))
    ensures AllHaveSettings(Registry.Select(Registry.Order, keys))
    ensures NamesUnique(Registry.Select(Registry.Order, keys))
  {
    Registry.RegistryShape(keys);
    Registry.NamesDistinct(keys);
    var r := Registry.Select(Registry.Order, keys);
    forall i | 0 <= i < |r| ensures r[i].1.Settings().Some? {
      assert Registry.Truthy(keys.For(r[i].1.Kind()));
    }
    CanEmoteIffSettings(r);
  }

  /** A request written by a generation is read back by the history: the
      folder named after the uuid, holding the `request.json` of the record,
      yields the uuid, the folder, the parsed timestamp, the text and the
      settings. */
  lemma HistoryReadsBackRequest(
    text: string, settings: seq<Base.Settings>, cwd: string, uuid: string, timestamp: string, parse: History.Parser)
    requires Audio.IsUuidText(uuid)
    requires parse(timestamp).Some?
    ensures var (u, folder, rec) := Audio.CreateRequestFolder(text, settings, None, cwd, uuid, timestamp);
      var doc := History.JsonRequest(Some(rec.timestamp), Some(rec.text), Some(rec.providerSettings));
      var f := History.Folder(Audio.LastComponent(folder), folder, true, History.Loaded(doc), History.Missing);
      History.ReadFolder(f, parse) == Some(History.Generation(u, folder, parse(timestamp), text, settings))
  {
    Audio.RequestFolderShape(text, settings, None, cwd, uuid, timestamp);
  }
}
