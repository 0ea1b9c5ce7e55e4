/**
 * The deterministic parts of src/utils/audio.py: the container sniffing of
 * `get_audio_format`, the file name `save_audio_permanent` derives from a
 * provider name, and the request record and folder `create_request_folder`
 * builds.  Writing files and creating directories are not part of this
 * model; the uuid and the timestamp, which the source draws from
 * `uuid.uuid4()` and `datetime.now()`, are parameters.
 */
module Audio {
  import opened Wrappers
  import opened Text
  import Base

  newtype byte = x: int | 0 <= x < 256

  /** "RIFF", the chunk identifier a WAV file starts with. */
  const Riff: seq<byte> := [0x52, 0x49, 0x46, 0x46]
  /** "WAVE", the RIFF form type of a WAV file. */
  const Wave: seq<byte> := [0x57, 0x41, 0x56, 0x45]
  /** "ID3", the start of an ID3v2 tag header (section 3.1 of the ID3v2.3.0 informal standard). */
  const Id3: seq<byte> := [0x49, 0x44, 0x33]
  /** The MPEG-1 Layer III frame sync with no CRC (ISO/IEC 11172-3, clause 2.4.2.3). */
  const FrameSync: seq<byte> := [0xFF, 0xFB]

  /** `audio_data[:12]`. */
  function Header(data: seq<byte>): (h: seq<byte>)
    ensures |h| <= 12 && |h| <= |data| && h == data[..|h|]
    ensures |data| >= 12 ==> |h| == 12
    ensures |data| < 12 ==> h == data
  {
    data[..if |data| < 12 then |data| else 12]
  }

  /** `get_audio_format`: "wav" for a RIFF file with "WAVE" in its first 12
      bytes, "mp3" for an ID3 tag or a frame sync, and None otherwise. */
  function GetAudioFormat(data: seq<byte>): (r: Option<string>)
    ensures r == None || r == Some("wav") || r == Some("mp3")
  {
    if StartsWith(data, Riff) && Contains(Header(data), Wave) then Some("wav")
    else if StartsWith(data, Id3) || StartsWith(data, FrameSync) then Some("mp3")
    else None
  }

  // ---------------------------------------------------------------------------
  // What the sniffing promises

  /** "wav" exactly when the buffer starts with "RIFF" and "WAVE" begins at
      one of the offsets 0 to 8, so that it ends within the first 12 bytes. */
  lemma WavExactly(data: seq<byte>)
    ensures GetAudioFormat(data) == Some("wav") <==>
      StartsWith(data, Riff) && exists i :: 0 <= i <= 8 && OccursAt(data, i, Wave)
  {
    var h := Header(data);
    if exists i :: OccursAt(h, i, Wave) {
      var i :| OccursAt(h, i, Wave);
      assert data[i..i + |Wave|] == h[i..i + |Wave|];
      assert OccursAt(data, i, Wave);
    }
    if exists i :: 0 <= i <= 8 && OccursAt(data, i, Wave) {
      var i :| 0 <= i <= 8 && OccursAt(data, i, Wave);
      assert h[i..i + |Wave|] == data[i..i + |Wave|];
      assert OccursAt(h, i, Wave);
    }
  }

  /** "mp3" exactly when the buffer is not a WAV and starts with an ID3 tag
      or the frame sync; None exactly when it is neither. */
  lemma Mp3Exactly(data: seq<byte>)
    ensures GetAudioFormat(data) == Some("mp3") <==>
      !(StartsWith(data, Riff) && exists i :: 0 <= i <= 8 && OccursAt(data, i, Wave)) &&
      (StartsWith(data, Id3) || StartsWith(data, FrameSync))
    ensures GetAudioFormat(data) == None <==>
      !(StartsWith(data, Riff) && exists i :: 0 <= i <= 8 && OccursAt(data, i, Wave)) &&
      !StartsWith(data, Id3) && !StartsWith(data, FrameSync)
  {
    WavExactly(data);
  }

  /** Only the first 12 bytes are ever looked at. */
  lemma FormatDependsOnHeader(data: seq<byte>, rest: seq<byte>)
    requires |data| >= 12
    ensures GetAudioFormat(data + rest) == GetAudioFormat(data)
    ensures GetAudioFormat(data) == GetAudioFormat(Header(data))
  {
    assert Header(data + rest) == Header(data) == data[..12];
    assert Header(data[..12]) == data[..12];
    PrefixStartsWith(data, rest, Riff);
    PrefixStartsWith(data, rest, Id3);
    PrefixStartsWith(data, rest, FrameSync);
    PrefixStartsWith(data[..12], data[12..], Riff);
    PrefixStartsWith(data[..12], data[12..], Id3);
    PrefixStartsWith(data[..12], data[12..], FrameSync);
    assert data[..12] + data[12..] == data;
  }

  lemma PrefixStartsWith(data: seq<byte>, rest: seq<byte>, p: seq<byte>)
    requires |p| <= |data|
    ensures StartsWith(data + rest, p) <==> StartsWith(data, p)
  {
    assert (data + rest)[..|p|] == data[..|p|];
  }

  /** The canonical WAV header: "RIFF", the chunk size, "WAVE". */
  lemma WavHeaderDetected(size: seq<byte>, rest: seq<byte>)
    requires |size| == 4
    ensures GetAudioFormat(Riff + size + Wave + rest) == Some("wav")
  {
    var data := Riff + size + Wave + rest;
    assert data[..4] == Riff;
    assert data[8..12] == Wave;
    assert OccursAt(data, 8, Wave);
    WavExactly(data);
  }

  /** "WAVE" past the first 12 bytes does not make a WAV. */
  lemma WaveTooLate(gap: seq<byte>)
    requires |gap| == 5 && forall k :: 0 <= k < 5 ==> gap[k] == 0
    ensures GetAudioFormat(Riff + gap + Wave) == None
  {
    var data := Riff + gap + Wave;
    assert data[..4] == Riff;
    assert data[0] != Id3[0] && data[0] != FrameSync[0];
    forall i | 0 <= i <= 8 ensures !OccursAt(data, i, Wave) {
      if i < 4 {
        assert data[i] != Wave[0];
      } else {
        assert data[i] == 0;
      }
    }
    WavExactly(data);
  }

  /** A buffer opening with an ID3 tag is "mp3". */
  lemma Id3Detected(rest: seq<byte>)
    ensures GetAudioFormat(Id3 + rest) == Some("mp3")
  {
    var data := Id3 + rest;
    assert data[..3] == Id3;
    assert data[0] != Riff[0];
  }

  /** A buffer opening with the frame sync is "mp3". */
  lemma FrameSyncDetected(rest: seq<byte>)
    ensures GetAudioFormat(FrameSync + rest) == Some("mp3")
  {
    var data := FrameSync + rest;
    assert data[..2] == FrameSync;
    assert data[0] != Riff[0];
  }

  /** Other MPEG sync words, such as `FF F3`, are not recognised. */
  lemma OtherSyncUnknown(rest: seq<byte>)
    ensures GetAudioFormat([0xFF, 0xF3] + rest) == None
  {
    var data := [0xFF, 0xF3] + rest;
    assert data[0] != Riff[0] && data[0] != Id3[0];
    assert data[1] != FrameSync[1];
  }

  /** The empty buffer and one-byte buffers are never recognised. */
  lemma ShortBuffersUnknown(data: seq<byte>)
    requires |data| <= 1
    ensures GetAudioFormat(data) == None
  {
  }

  // ---------------------------------------------------------------------------
  // File names

  /** `provider_name.lower().replace(" ", "_")`. */
  function SafeProviderName(name: string): (r: string)
    ensures |r| == |name|
    ensures forall k :: 0 <= k < |r| ==> r[k] != ' ' && !('A' <= r[k] <= 'Z')
  {
    ReplaceChar(Lower(name), ' ', '_')
  }

  /** `f"{safe_provider_name}.{audio_format}"`. */
  function ArtifactFilename(providerName: string, format: string): string
  {
    SafeProviderName(providerName) + "." + format
  }

  /** The key the results page builds from a settings `name`:
      `name.lower().replace(" ", "_")`. */
  function ResultsKey(name: string): string
  {
    ReplaceChar(Lower(name), ' ', '_')
  }

  /** The index of the last `c` in `s`, or -1. */
  function LastIndexOf(s: string, c: char): (i: int)
    ensures -1 <= i < |s|
    ensures i >= 0 ==> s[i] == c
    ensures forall k :: i < k < |s| ==> s[k] != c
  {
    if s == [] then -1
    else if s[|s| - 1] == c then |s| - 1
    else LastIndexOf(s[..|s| - 1], c)
  }

  /** `PurePath.stem` of a file name: everything before the last dot, unless
      that dot is the first or the last character. */
  function Stem(filename: string): string
  {
    var i := LastIndexOf(filename, '.');
    if 0 < i < |filename| - 1 then filename[..i] else filename
  }

  /** A saved file's stem is the safe provider name. */
  lemma StemOfArtifact(providerName: string, format: string)
    requires providerName != [] && format != [] && '.' !in format
    ensures Stem(ArtifactFilename(providerName, format)) == SafeProviderName(providerName)
  {
    var safe := SafeProviderName(providerName);
    var f := ArtifactFilename(providerName, format);
    assert f[|safe|] == '.';
    forall k | |safe| < k < |f| ensures f[k] != '.' {
      assert f[k] == format[k - |safe| - 1];
    }
    assert LastIndexOf(f, '.') == |safe|;
  }

  /** The results page finds every saved file: lowercasing the file's stem
      gives the key it builds from the provider's settings name. */
  lemma ResultsPageFindsArtifact(providerName: string, format: string)
    requires providerName != [] && format != [] && '.' !in format
    ensures Lower(Stem(ArtifactFilename(providerName, format))) == ResultsKey(providerName)
  {
    StemOfArtifact(providerName, format);
    var safe := SafeProviderName(providerName);
    forall k | 0 <= k < |safe| ensures LowerChar(safe[k]) == safe[k] {
    }
  }

  /** "Inworld AI" is saved as `inworld_ai.mp3`. */
  lemma InworldFilename()
    ensures ArtifactFilename("Inworld AI", "mp3") == "inworld_ai.mp3"
  {
    assert Lower("Inworld AI") == "inworld ai";
  }

  // ---------------------------------------------------------------------------
  // The request record

  /** The JSON object written to `request.json`. */
  datatype RequestRecord = RequestRecord(
    timestamp: string, uuid: string, text: string, providerSettings: seq<Base.Settings>)

  /** `base / name` for a base path without a trailing separator. */
  function JoinPath(base: string, name: string): string
  {
    base + "/" + name
  }

  /** The last component of a path. */
  function LastComponent(path: string): string
  {
    path[LastIndexOf(path, '/') + 1..]
  }

  /** `str(uuid.uuid4())`: 36 characters, hexadecimal digits and dashes. */
  predicate IsUuidText(u: string)
  {
    |u| == 36 && forall k :: 0 <= k < |u| ==> u[k] == '-' || '0' <= u[k] <= '9' || 'a' <= u[k] <= 'f'
  }

  /** `create_request_folder` with the uuid and the ISO timestamp supplied:
      the folder is `base/uuid` (`base` defaulting to `cwd/data`), and the
      record holds the timestamp, the uuid, the text and the settings. */
  function CreateRequestFolder(
    text: string, providerSettings: seq<Base.Settings>, basePath: Option<string>,
    cwd: string, uuid: string, timestamp: string): (string, string, RequestRecord)
  {
    var base := if basePath.Some? then basePath.value else JoinPath(cwd, "data");
    (uuid, JoinPath(base, uuid), RequestRecord(timestamp, uuid, text, providerSettings))
  }

  /** The returned uuid is the folder's last path component and the record's
      `uuid`; text and settings are stored unchanged; the record file sits in
      the folder. */
  lemma RequestFolderShape(
    text: string, providerSettings: seq<Base.Settings>, basePath: Option<string>,
    cwd: string, uuid: string, timestamp: string)
    requires IsUuidText(uuid)
    ensures var (u, folder, rec) := CreateRequestFolder(text, providerSettings, basePath, cwd, uuid, timestamp);
      u == uuid && LastComponent(folder) == uuid && rec.uuid == uuid &&
      rec.text == text && rec.providerSettings == providerSettings && rec.timestamp == timestamp
  {
    var (u, folder, rec) := CreateRequestFolder(text, providerSettings, basePath, cwd, uuid, timestamp);
    var i := |folder| - |uuid| - 1;
    assert folder[i] == '/';
    forall k | i < k < |folder| ensures folder[k] != '/' {
      assert folder[k] == uuid[k - i - 1];
    }
    assert LastIndexOf(folder, '/') == i;
    assert folder[i + 1..] == uuid;
  }
}
