/**
 * The ElevenLabs adapter (src/providers/elevenlabs.py): its defaults, the
 * model-dependent emotion capability, the rewrite of `<tag>LABEL</tag>` into
 * bracketed audio tags, and the request `synthesize` sends.  The HTTP call
 * itself is not part of this model.
 */
module ElevenLabs {
  import opened Wrappers
  import opened Text
  import opened EmotionTags
  import Base

  const EndpointPrefix: string := "https://api.elevenlabs.io/v1/text-to-speech/"
  const DefaultVoiceId: string := "1SM7GgM6IMuvQlz2BwM3"
  const DefaultModel: string := "eleven_v3"
  const DefaultFormat: string := "mp3"
  const DefaultSampleRate: nat := 44100
  const DefaultBitRate: nat := 128

  const EmotionMap: map<string, string> := map[
    "laughter" := "laughter", "angry" := "angry", "excited" := "excited", "happy" := "happy",
    "sad" := "sad", "surprised" := "surprised", "scared" := "scared", "calm" := "calm"]

  /** What `synthesize` posts: the URL, the `xi-api-key` header, the JSON body
      (`text`, `model_id`) and the `output_format` query parameter. */
  datatype Request = Request(url: string, apiKey: Option<string>, text: string, modelId: string, outputFormat: string)

  datatype ElevenLabsProvider = ElevenLabsProvider(apiKey: Option<string>, model: string) {

    function Name(): string
    {
      "ElevenLabs"
    }

    function Settings(): Base.Settings
    {
      Base.Settings(Name(), model, DefaultFormat, DefaultVoiceId, DefaultSampleRate)
    }

    /** Only `eleven_v3` can emote. */
    predicate CanEmote()
    {
      model == "eleven_v3"
    }

    /** `_process_emotion_tags`: spans are deleted when the model cannot emote,
        and rewritten by `ReplaceTag` when it can; the result is stripped. */
    function ProcessEmotionTags(text: string): string
    {
      if !CanEmote() then Strip(Sub(text, Erase))
      else Strip(Sub(text, ReplaceTag))
    }

    function BuildRequest(text: string): Request
    {
      Request(EndpointPrefix + DefaultVoiceId, apiKey, ProcessEmotionTags(text), model, OutputFormat())
    }
  }

  /** `ElevenLabsProvider(api_key, model)`: `model or DEFAULT_MODEL_ID`. */
  function NewProvider(apiKey: Option<string>, model: Option<string>): (p: ElevenLabsProvider)
    ensures p.apiKey == apiKey
    ensures p.model != []
    ensures model.Some? && model.value != [] ==> p.model == model.value
    ensures model.None? || model.value == [] ==> p.model == DefaultModel && p.CanEmote()
  {
    ElevenLabsProvider(apiKey, if model.Some? && model.value != [] then model.value else DefaultModel)
  }

  /** `f"{DEFAULT_FORMAT}_{DEFAULT_SAMPLE_RATE}_{DEFAULT_BIT_RATE}"`. */
  function OutputFormat(): string
  {
    DefaultFormat + "_" + NatToString(DefaultSampleRate) + "_" + NatToString(DefaultBitRate)
  }

  /** `replace_tag`: a known label becomes `[LABEL]`, an unknown one nothing. */
  function ReplaceTag(body: string): (r: string)
    ensures NormalizeLabel(body) in KnownLabels ==> r == "[" + NormalizeLabel(body) + "]"
    ensures r == [] <==> NormalizeLabel(body) !in KnownLabels
  {
    var emotion := NormalizeLabel(body);
    EmotionMapIsIdentity();
    if emotion in EmotionMap then "[" + EmotionMap[emotion] + "]" else ""
  }

  /** Every known label maps to itself. */
  lemma EmotionMapIsIdentity()
    ensures EmotionMap.Keys == KnownLabels
    ensures forall e :: e in EmotionMap ==> EmotionMap[e] == e
  {
  }

  /** The query parameter reads `mp3_44100_128`. */
  lemma OutputFormatValue()
    ensures OutputFormat() == "mp3_44100_128"
  {
    SampleRateDigits();
    BitRateDigits();
  }

  lemma SampleRateDigits()
    ensures NatToString(DefaultSampleRate) == "44100"
  {
    assert NatToString(4) == "4";
    assert NatToString(44) == "44";
    assert NatToString(441) == "441";
    assert NatToString(4410) == "4410";
  }

  lemma BitRateDigits()
    ensures NatToString(DefaultBitRate) == "128"
  {
    assert NatToString(1) == "1";
    assert NatToString(12) == "12";
  }

  /** The request goes to the default voice's endpoint with the provider's own
      key and model, and carries the processed text. */
  lemma RequestShape(p: ElevenLabsProvider, text: string)
    ensures var q := p.BuildRequest(text);
      q.url == EndpointPrefix + DefaultVoiceId &&
      q.apiKey == p.apiKey && q.modelId == p.model &&
      q.text == p.ProcessEmotionTags(text) && q.outputFormat == "mp3_44100_128"
  {
    OutputFormatValue();
  }

  /** The faster models cannot emote; the default can. */
  lemma EmoteByModel(key: Option<string>)
    ensures !ElevenLabsProvider(key, "eleven_flash_v2_5").CanEmote()
    ensures NewProvider(key, None).CanEmote()
  {
    assert "eleven_flash_v2_5"[7] != "eleven_v3"[7];
  }

  /** With an emoting model, one span becomes its replacement and the rest of the text stays. */
  lemma EmotingOneSpan(p: ElevenLabsProvider, a: string, b: string, c: string)
    requires p.CanEmote()
    requires '<' !in a && '<' !in b && '<' !in c && '\n' !in b
    ensures p.ProcessEmotionTags(a + Open + b + Close + c) == Strip(a + ReplaceTag(b) + c)
  {
    BodyWithoutAngle(b);
    SubOneSpan(a, b, c, ReplaceTag);
  }

  /** With a muted model, one span disappears and both neighbouring texts stay. */
  lemma MutedOneSpan(p: ElevenLabsProvider, a: string, b: string, c: string)
    requires !p.CanEmote()
    requires '<' !in a && '<' !in b && '<' !in c && '\n' !in b
    ensures p.ProcessEmotionTags(a + Open + b + Close + c) == Strip(a + c)
  {
    BodyWithoutAngle(b);
    SubOneSpan(a, b, c, Erase);
    assert a + Erase(b) == a;
  }

  /** Text without a complete span is only stripped, whatever the model. */
  lemma TagFreeTextOnlyStripped(p: ElevenLabsProvider, text: string)
    requires !HasSpan(text)
    ensures p.ProcessEmotionTags(text) == Strip(text)
  {
    SubWithoutSpan(text, Erase);
    SubWithoutSpan(text, ReplaceTag);
  }

  /** A muted model only deletes: the transcript is a subsequence of the input. */
  lemma MutedTranscriptInsertsNothing(p: ElevenLabsProvider, text: string)
    requires !p.CanEmote()
    ensures IsSubsequence(p.ProcessEmotionTags(text), text)
  {
    var e := Sub(text, Erase);
    EraseIsSubsequence(text);
    StripIsInfix(e);
    InfixIsSubsequence(Strip(e), e);
    SubsequenceTransitive(Strip(e), e, text);
  }

  /** An unknown label, once deleted, can leave a complete `<tag>…</tag>` in
      the transcript sent to the service. */
  lemma UnknownLabelCanLeaveSpan(p: ElevenLabsProvider, b: string, x: string)
    requires p.CanEmote()
    requires '<' !in b && '\n' !in b && NormalizeLabel(b) !in KnownLabels
    requires '<' !in x && '\n' !in x
    ensures HasSpan(p.ProcessEmotionTags("<" + Open + b + Close + "tag>" + x + Close))
  {
    UnknownLabelTranscript(p, b, x);
    SpanOf(x);
  }

  lemma UnknownLabelTranscript(p: ElevenLabsProvider, b: string, x: string)
    requires p.CanEmote()
    requires '<' !in b && '\n' !in b && NormalizeLabel(b) !in KnownLabels
    requires '<' !in x
    ensures p.ProcessEmotionTags("<" + Open + b + Close + "tag>" + x + Close) == Open + x + Close
  {
    UnknownLabelJoins(b, x);
    SpanIsStripped(x);
  }

  lemma UnknownLabelJoins(b: string, x: string)
    requires '<' !in b && '\n' !in b && NormalizeLabel(b) !in KnownLabels
    requires '<' !in x
    ensures Sub("<" + Open + b + Close + "tag>" + x + Close, ReplaceTag) == Open + x + Close
  {
    BodyWithoutAngle(b);
    ErasedSpanJoins(b, x, ReplaceTag);
  }

  lemma SpanIsStripped(x: string)
    ensures Strip(Open + x + Close) == Open + x + Close
  {
    var r := Open + x + Close;
    assert r[0] == '<' && r[|r| - 1] == '>';
    StripUnchanged(r);
  }

  /** A known label, in any letter case and with blanks around it, becomes
      the bracketed lower-case label. */
  lemma KnownLabelInAnyCase(pre: string, b: string, post: string)
    requires AllSpace(pre) && AllSpace(post)
    requires b != [] && !IsSpace(b[0]) && !IsSpace(b[|b| - 1])
    requires Lower(b) in KnownLabels
    ensures ReplaceTag(pre + b + post) == "[" + Lower(b) + "]"
  {
    LabelIgnoresPadding(pre, b, post);
  }
}
