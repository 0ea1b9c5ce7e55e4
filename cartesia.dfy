/**
 * The Cartesia adapter (src/providers/cartesia.py): its defaults, the
 * model-dependent emotion capability, the rewrite of `<tag>LABEL</tag>` into
 * Cartesia markup, and the request body it sends.  The HTTP call itself is
 * not part of this model.
 */
module Cartesia {
  import opened Wrappers
  import opened Text
  import opened EmotionTags
  import Base

  const DefaultModel: string := "sonic-3"
  const DefaultVoiceId: string := "c961b81c-a935-4c17-bfb3-ba2239de8c2f"
  const DefaultSampleRate: int := 44100
  const DefaultFormat: string := "mp3"
  const BitRate: int := 128000

  const EmotionMap: map<string, string> := map[
    "laughter" := "laughter", "angry" := "angry", "excited" := "excited", "happy" := "happy",
    "sad" := "sad", "scared" := "scared", "surprised" := "surprised", "calm" := "calm"]

  /** The JSON body of the synthesis request. */
  datatype Payload = Payload(
    modelId: string, transcript: string, voiceMode: string, voiceId: string,
    language: string, container: string, bitRate: int, sampleRate: int)

  datatype CartesiaProvider = CartesiaProvider(apiKey: Option<string>, model: string) {

    function Name(): string
    {
      "Cartesia"
    }

    function Settings(): Base.Settings
    {
      Base.Settings(Name(), model, DefaultFormat, DefaultVoiceId, DefaultSampleRate)
    }

    /** Only the sonic-3 family can emote. */
    predicate CanEmote()
    {
      StartsWith(model, "sonic-3")
    }

    /** `_process_emotion_tags`: spans are deleted when the model cannot emote,
        and rewritten by `ReplaceTag` when it can; the result is stripped. */
    function ProcessEmotionTags(text: string): string
    {
      if !CanEmote() then Strip(Sub(text, Erase))
      else Strip(Sub(text, ReplaceTag))
    }

    /** The body `synthesize` posts: the processed text as the transcript. */
    function Request(text: string): Payload
    {
      Payload(model, ProcessEmotionTags(text), "id", DefaultVoiceId, "en", DefaultFormat, BitRate, DefaultSampleRate)
    }
  }

  /** `CartesiaProvider(api_key, model)`: `model or DEFAULT_MODEL`. */
  function NewProvider(apiKey: Option<string>, model: Option<string>): (p: CartesiaProvider)
    ensures p.apiKey == apiKey
    ensures p.model != []
    ensures model.Some? && model.value != [] ==> p.model == model.value
    ensures model.None? || model.value == [] ==> p.model == DefaultModel && p.CanEmote()
  {
    CartesiaProvider(apiKey, if model.Some? && model.value != [] then model.value else DefaultModel)
  }

  /** `replace_tag`: laughter becomes the bracketed `[laughter]`, every other
      known label the self-closing `<emotion value="LABEL" />` element, and an
      unknown label nothing. */
  function ReplaceTag(body: string): string
  {
    var emotion := NormalizeLabel(body);
    if emotion in EmotionMap && emotion == "laughter" then "[" + EmotionMap[emotion] + "]"
    else if emotion in EmotionMap then "<emotion value=\"" + EmotionMap[emotion] + "\" />"
    else ""
  }

  /** What each kind of label is replaced by: every known label is written
      lower-case in its markup, and an unknown one is dropped. */
  lemma ReplaceTagCases(body: string)
    ensures NormalizeLabel(body) == "laughter" ==> ReplaceTag(body) == "[" + NormalizeLabel(body) + "]"
    ensures NormalizeLabel(body) in KnownLabels && NormalizeLabel(body) != "laughter" ==>
      ReplaceTag(body) == "<emotion value=\"" + NormalizeLabel(body) + "\" />"
    ensures NormalizeLabel(body) !in KnownLabels ==> ReplaceTag(body) == []
  {
    var e := NormalizeLabel(body);
    if e == "laughter" {
      LaughterCase(body);
    } else if e in KnownLabels {
      ElementCase(body);
    } else {
      UnknownCase(body);
    }
  }

  lemma LaughterCase(body: string)
    requires NormalizeLabel(body) == "laughter"
    ensures ReplaceTag(body) == "[" + NormalizeLabel(body) + "]"
  {
    var e := NormalizeLabel(body);
    EmotionMapIsIdentity();
    assert e in EmotionMap && EmotionMap[e] == e;
  }

  lemma ElementCase(body: string)
    requires NormalizeLabel(body) in KnownLabels && NormalizeLabel(body) != "laughter"
    ensures ReplaceTag(body) == "<emotion value=\"" + NormalizeLabel(body) + "\" />"
  {
    var e := NormalizeLabel(body);
    EmotionMapIsIdentity();
    assert e in EmotionMap && EmotionMap[e] == e;
  }

  lemma UnknownCase(body: string)
    requires NormalizeLabel(body) !in KnownLabels
    ensures ReplaceTag(body) == []
  {
    EmotionMapIsIdentity();
    assert NormalizeLabel(body) !in EmotionMap;
  }

  /** Every known label maps to itself. */
  lemma EmotionMapIsIdentity()
    ensures EmotionMap.Keys == KnownLabels
    ensures forall e :: e in EmotionMap ==> EmotionMap[e] == e
  {
  }

  /** sonic-2 cannot emote; any sonic-3 variant can. */
  lemma EmoteByModel(key: Option<string>)
    ensures !CartesiaProvider(key, "sonic-2").CanEmote()
    ensures CartesiaProvider(key, "sonic-3-2025-10-27").CanEmote()
  {
    assert "sonic-3-2025-10-27"[..7] == "sonic-3";
    assert "sonic-2"[6] != "sonic-3"[6];
  }

  /** Text with no complete span is only stripped, whatever the model. */
  lemma TagFreeTextOnlyStripped(p: CartesiaProvider, text: string)
    requires !HasSpan(text)
    ensures p.ProcessEmotionTags(text) == Strip(text)
    ensures p.Request(text).transcript == Strip(text)
  {
    SubWithoutSpan(text, Erase);
    SubWithoutSpan(text, ReplaceTag);
  }

  /** A model that cannot emote sends a transcript made only of characters of
      the input, in their order: no emotion markup is inserted. */
  lemma MutedTranscriptInsertsNothing(p: CartesiaProvider, text: string)
    requires !p.CanEmote()
    ensures IsSubsequence(p.Request(text).transcript, text)
  {
    var erased := Sub(text, Erase);
    EraseIsSubsequence(text);
    StripIsInfix(erased);
    InfixIsSubsequence(Strip(erased), erased);
    SubsequenceTransitive(Strip(erased), erased, text);
  }

  /** With an emoting model, one span becomes its replacement and the rest of the text stays. */
  lemma EmotingOneSpan(p: CartesiaProvider, a: string, b: string, c: string)
    requires p.CanEmote()
    requires '<' !in a && '<' !in b && '<' !in c && '\n' !in b
    ensures p.ProcessEmotionTags(a + Open + b + Close + c) == Strip(a + ReplaceTag(b) + c)
  {
    BodyWithoutAngle(b);
    SubOneSpan(a, b, c, ReplaceTag);
  }

  /** With a muted model, one span disappears and both neighbouring texts stay. */
  lemma MutedOneSpan(p: CartesiaProvider, a: string, b: string, c: string)
    requires !p.CanEmote()
    requires '<' !in a && '<' !in b && '<' !in c && '\n' !in b
    ensures p.ProcessEmotionTags(a + Open + b + Close + c) == Strip(a + c)
  {
    BodyWithoutAngle(b);
    SubOneSpan(a, b, c, Erase);
    assert a + Erase(b) == a;
  }

  /** A muted model drops the span and keeps the blanks on both of its sides,
      so that `Hello <tag>angry</tag> world` is sent as `Hello  world`. */
  lemma MutedKeepsBothBlanks(p: CartesiaProvider, a: string, b: string, c: string)
    requires !p.CanEmote()
    requires '<' !in a && '<' !in b && '<' !in c && '\n' !in b
    requires a != [] && !IsSpace(a[0]) && c != [] && !IsSpace(c[|c| - 1])
    ensures p.ProcessEmotionTags(a + " " + Open + b + Close + " " + c) == a + "  " + c
  {
    var t := a + " " + Open + b + Close;
    assert t + " " + c == t + (" " + c);
    MutedOneSpan(p, a + " ", b, " " + c);
    BlanksKept(a, c);
  }

  lemma BlanksKept(a: string, c: string)
    requires a != [] && !IsSpace(a[0]) && c != [] && !IsSpace(c[|c| - 1])
    ensures Strip((a + " ") + (" " + c)) == a + "  " + c
  {
    var r := (a + " ") + (" " + c);
    assert r == a + "  " + c;
    assert r[0] == a[0] && r[|r| - 1] == c[|c| - 1];
    StripUnchanged(r);
  }

  /** `laughter`, in any letter case and with blanks around it, becomes `[laughter]`. */
  lemma LaughterInAnyCase(pre: string, b: string, post: string)
    requires AllSpace(pre) && AllSpace(post)
    requires b != [] && !IsSpace(b[0]) && !IsSpace(b[|b| - 1])
    requires Lower(b) == "laughter"
    ensures ReplaceTag(pre + b + post) == "[" + Lower(b) + "]"
  {
    LabelIgnoresPadding(pre, b, post);
    ReplaceTagCases(pre + b + post);
  }

  /** Any other known label, in any letter case and with blanks around it,
      becomes the emotion element holding the lower-case label. */
  lemma EmotionInAnyCase(pre: string, b: string, post: string)
    requires AllSpace(pre) && AllSpace(post)
    requires b != [] && !IsSpace(b[0]) && !IsSpace(b[|b| - 1])
    requires Lower(b) in KnownLabels && Lower(b) != "laughter"
    ensures ReplaceTag(pre + b + post) == "<emotion value=\"" + Lower(b) + "\" />"
  {
    LabelIgnoresPadding(pre, b, post);
    ReplaceTagCases(pre + b + post);
  }
}
