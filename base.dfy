/**
 * What every adapter shares (src/providers/base.py): the API key the
 * constructor stores, and its validation.  The `settings` record that the
 * Cartesia and ElevenLabs adapters report has one shape, defined here too.
 */
module Base {
  import opened Wrappers
  import opened Text

  /** The `settings` property: name, model, container format, voice and sample rate. */
  datatype Settings = Settings(name: string, modelId: string, format: string, voiceId: string, sampleRate: int)

  /** `validate_api_key`: `bool(api_key and api_key.strip())`.  The key is valid
      exactly when it is present and holds a character that is not whitespace;
      nothing is changed. */
  function ValidateApiKey(apiKey: Option<string>): (ok: bool)
    ensures ok <==> apiKey.Some? && exists k :: 0 <= k < |apiKey.value| && !IsSpace(apiKey.value[k])
  {
    if apiKey.Some? then StripEmpty(apiKey.value); apiKey.value != "" && Strip(apiKey.value) != ""
    else false
  }

  /** None, the empty key and a key of only whitespace are all rejected. */
  lemma RejectedKeys()
    ensures !ValidateApiKey(None)
    ensures !ValidateApiKey(Some(""))
    ensures !ValidateApiKey(Some(" \t\n"))
    ensures ValidateApiKey(Some(" sk-1 "))
  {
    assert !IsSpace(" sk-1 "[1]);
  }
}
