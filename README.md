# Code-mixed South Indian language glue — a Dafny model

The repository is a set of small Python programs around hosted language models.
They handle text and speech that mixes Tamil, Telugu, Kannada or Malayalam with English.
This project models the logic those programs wrap around the external calls:

- **chat.py**: the code-mixing detector and the chat bot.
  - The detector turns the model's JSON reply into a detection record. Every
    failure falls back to one fixed record.
  - The bot chooses a system directive from the detection and its table of
    cultural context.
  - The bot keeps a conversation history. It appends the user turn on every
    call, and the assistant turn only when generation succeeds. Each request
    sends the last ten turns.
- **tts.py**:
  - the phrase catalogue and custom phrases;
  - the clean-up of the "enhanced" text the model returns, which uses Python's
    `str.strip()` and `str.replace(old, "")` (modelled exactly in `PyStr`);
  - the choice of text to synthesise;
  - the phrase-number check of the interactive menu.
- **stt.py**: the result assembly of `LanguageDetector.detect_language`. A reply
  that is not JSON is replaced by a default analysis; every other failure gives
  an `"error"` record.

Every call to the hosted service is a parameter of the model, never performed:

- `Outcome<T>` is `Fail(exception text)` or `Ok(payload)`.
- `Decoded` is the result of `json.loads`: `DecodeError` or a JSON `Value`.

The modules are:

- `Wrappers`: `Option`.
- `Json`: JSON values, Python truthiness, and the text of the `TypeError` or
  `KeyError` that a subscript raises.
- `PyStr`: `strip` and `replace`.
- `Chat`, `Tts` and `Stt`: one module for each program.

The chat bot is a class whose `conversationHistory` field its method updates.
The rest of the code builds values without changing state, and is modelled as functions.

The fields the source copies from JSON without checking are kept as JSON values:

- chat: `confidence`, `is_code_mixed` and `mix_ratio`;
- stt: `detected_language` and `confidence`.

The directive branch tests `is_code_mixed` by Python truthiness, as `if detected_lang.is_code_mixed:` does.

## Model

| member | source | states |
|---|---|---|
| Json.SubscriptError | stt.py:187-188 | `v["key"]` raises a `TypeError` exactly when `v` is not a dict, and its text is never empty |
| Json.KeyErrorText | stt.py:197-206 | the `str(e)` of a `KeyError` for the fixed keys looked up at stt.py:187-188 is the key between single quotes |
| Chat.LanguageOf | chat.py:19-26 | `SouthIndianLanguage(v)` succeeds exactly on the six member values, and returns the member whose value is `v` |
| Chat.LanguageOfName | chat.py:19-26 | looking up a member's own value gives the member back |
| Chat.NameInjective | chat.py:19-26 | no two members share a value |
| Chat.DetectLanguage | chat.py:54-110 | any reply that raises (transport error, non-JSON, non-object, missing key, unknown language string) gives the one fallback record `{ENGLISH, None, 0.5, False, 0.0}`; otherwise primary and secondary name the reply's strings, secondary is absent exactly when `secondary_language` is falsy, and the other three fields are copied |
| Chat.FailuresAreIdentical | chat.py:101-110 | any two failing detections give field-for-field identical records |
| Chat.UnknownLanguageFallsBack | chat.py:93-99 | a reply whose primary language, or truthy secondary language, is any value outside the enum falls back as a whole, whatever its other keys |
| Chat.DetectionIsNotNormalised | chat.py:93-99 | the detector does not normalise: a secondary language can come back with `is_code_mixed` false and a non-zero mix ratio |
| Chat.CulturalTableKeys | chat.py:121-142 | the cultural table has entries for exactly the four regional languages |
| Chat.ContextFor | chat.py:148-159 | English and Mixed get the defaults "Hello", "General South Indian" and "South Indian cuisine"; each regional language gets its own greeting |
| Chat.CreateSystemPrompt | chat.py:144-190 | the code-mixed branch is taken exactly when `is_code_mixed` is truthy, the English branch exactly when it is falsy and the language is English, the blend otherwise; the cultural fields come from the table entry, or are the defaults when there is none |
| Chat.BranchDependsOnlyOnFlags | chat.py:150-190 | the branch depends only on the truthiness of `is_code_mixed` and on whether the language is English |
| Chat.CodeMixedTamilScenario | chat.py:144-160 | a Tamil reply with a truthy `is_code_mixed`, with or without a valid secondary language, leads to the code-mixed directive with the Tamil greeting, culture and food |
| Chat.Window | chat.py:206 | `history[-10:]`: the last min(n, 10) turns, in order |
| Chat.Request | chat.py:210-212 | the request is the system directive followed by the window's turns in order |
| Chat.ResponseFor | chat.py:226-244 | on success the reply text and the detected primary language; on failure the fixed apology and ENGLISH, whatever was detected |
| Chat.NextHistoryGrows | chat.py:203-224 | one call keeps the old history as a prefix, puts the user turn next, grows the history by 2 on success and 1 on failure, and keeps every assistant turn right after a user turn |
| Chat.Successes | chat.py:224 | the number of calls that appended an assistant turn: at most the number of calls, equal to it exactly when every generation succeeded, and zero exactly when every one failed |
| Chat.ConverseGrows | chat.py:203-224 | history is never truncated: after any sequence of calls it starts with the old history and has one turn per call plus one per success |
| Chat.AllSuccessfulDoubles | chat.py:203-224 | after N calls that all succeed, a fresh bot holds 2N turns |
| Chat.ConverseWellPaired | chat.py:203-224 | any sequence of calls keeps every assistant turn right after a user turn |
| Chat.CodeMixedChatBot.constructor | chat.py:118 | a new bot has an empty history |
| Chat.CodeMixedChatBot.GenerateResponse | chat.py:192-244 | the new history is the old one plus the user turn, plus the assistant turn on success; the request is the directive for this detection followed by the last ten turns, ending with the user turn; the response is as `ResponseFor` says; the pairing invariant is kept |
| Chat.CodeMixedChatBot.Respond | chat.py:203-244 | after detection: the user turn is appended before the request is built, the request ends with it, the assistant turn is appended only on success, and the pairing invariant is kept |
| PyStr.StripLeft | tts.py:206 | `lstrip()` drops exactly the leading whitespace: a suffix of the input, preceded only by whitespace, not starting with whitespace |
| PyStr.StripRight | tts.py:208 | `rstrip()` drops exactly the trailing whitespace |
| PyStr.Strip | tts.py:206-208 | `strip()` gives the slice of the input with only whitespace outside it and no whitespace at either end |
| PyStr.StrippedAtUnique | tts.py:206-208 | those facts determine the stripped string, so `Strip` is the only result meeting them |
| PyStr.RemoveAll | tts.py:208 | `replace(pat, "")` never lengthens the text and introduces no new characters |
| PyStr.Find | tts.py:208 | a found occurrence lies inside the text |
| PyStr.FindIsLeftmost | tts.py:208 | `find` returns the leftmost occurrence, and none only when there is none |
| PyStr.RemoveAllIsSearchAndCut | tts.py:208 | the left-to-right scan equals repeatedly cutting out the leftmost occurrence and continuing after it |
| PyStr.RemoveAllWithoutOccurrence | tts.py:208 | a text with no occurrence comes back unchanged |
| PyStr.RemoveAllKeepsUnmatched | tts.py:208 | characters before the first occurrence are kept as they are |
| PyStr.ReplaceIsSinglePass | tts.py:208 | replacement is a single pass: cutting out an occurrence can join its neighbours into a new one, which stays |
| PyStr.StripUnchanged | tts.py:206-208 | a text with no whitespace at either end is its own `strip()` |
| PyStr.RemoveCharRemovesAll | tts.py:208 | removing a one-character pattern leaves no copy of it |
| Tts.GetPhrases | tts.py:153-155 | four phrases for each regional language and none for MIXED; every phrase has its table key as primary language, no secondary language, a ratio in {0.4, 0.5, 0.6} and a non-empty text |
| Tts.CatalogueEntries | tts.py:59-151 | the catalogue has exactly the four regional languages as keys, each with four well-formed phrases |
| Tts.GenerateCustomPhrase | tts.py:157-165 | the custom phrase keeps the text and language, has no secondary language, ratio 0.3 and description "Custom user input" |
| Tts.CustomPhraseIsNotCatalogued | tts.py:59-165 | a custom phrase is never one of the catalogue's phrases |
| Tts.PostProcessCanLeaveMarker | tts.py:206-208 | the clean-up can leave "Enhanced text for TTS:" in its result: the marker with a copy of itself spliced in after three characters comes out as the marker |
| Tts.PostProcess | tts.py:206-208 | the cleaned text holds no double quote, neither starts nor ends with whitespace, and uses only characters of the reply |
| Tts.EnhanceTextForTts | tts.py:176-214 | a failed call gives the phrase's own text; a reply gives the cleaned text, with the properties of `PostProcess` |
| Tts.TextToSpeak | tts.py:225 | without enhancement the text sent is exactly the phrase's text; with it, the enhanced text |
| Tts.SelectPhrase | tts.py:335-354 | a non-number is rejected as such; number n selects `phrases[n-1]` exactly when 1 ≤ n ≤ len(phrases), and anything else is rejected without selecting |
| Stt.OrDefault | stt.py:174-175 | `language or default`: the language when it is a non-empty string, the default otherwise |
| Stt.Subscript | stt.py:187-188 | `v[key]` gives the entry when `v` is a dict holding `key`; otherwise the `TypeError` or `KeyError` text |
| Stt.DetectLanguage | stt.py:112-207 | a failed transcription or analysis call gives the error record with that text; an analysis that is not a dict, or lacks `primary_language` or then `confidence`, gives the error record with the matching exception text; otherwise the detected language and confidence come from the analysis, the transcription is the Whisper text, and the raw response holds exactly `whisper_response` and `gpt_analysis`, the latter being the analysis |
| Stt.JsonFallback | stt.py:169-182 | a reply that is not JSON still gives a result: the transcription's language, or "unknown", with confidence 0.7, language code the language or "unk", not code-mixed, no secondary languages |
| Stt.TwoShapes | stt.py:185-207 | every result is either a success with both responses or the error record with only the error text |
| Stt.MissingKeysAreErrors | stt.py:169-197 | valid JSON lacking `primary_language` or `confidence` ends in the error record, never in the default analysis |
| Stt.TranscriptionFailureDominates | stt.py:197-207 | a failed transcription decides the result whatever the analysis call would have done |

## Left out

- The hosted-model calls (chat completions, Whisper transcription, speech synthesis) are not performed. Each one is an `Outcome` parameter. Prompt wording is not modelled; a directive is its branch plus the fields it interpolates.
- `processing_time` and `time.time()` are left out because they read the wall clock.
- Floating-point values are never computed with. Confidences and ratios are copied, as JSON values or exact reals.
- All printing is left out: `print_language_info`, `print_phrase_info`, `print_results`, `print_sample_phrases`, and the warning lines in the `except` blocks.
- The `main` loops are left out: menus, `input()`, loading `.env`, and the API-key checks in the constructors. The one menu decision kept is the phrase-number check. There, `int(...)` is a parameter: `None` where it raises `ValueError`.
- `AudioRecorder` in stt.py is left out. It is device I/O, plus a background thread that appends frames while another thread clears a flag.
- The WAV writing in stt.py is left out as file I/O.
- `AudioPlayer`, the temporary file and `os.unlink` in tts.py are left out as audio and file I/O.
- `generate_speech` is modelled only as far as the text it sends (`Tts.TextToSpeak`). The synthesis request, the returned file path and the `None` on failure are I/O.
- real.py is not part of this model. Its only logic is a fixed instruction string handed to a realtime model.
- Whisper's `model_dump()` is kept as an opaque JSON value.
- A reply whose `content` is `None` in the detector (chat.py:91), the enhancement (tts.py:206) or the speech analysis (stt.py:170) is a `Fail` outcome, as Python raises there and the handler catches it.
- A `None` content from chat generation is not modelled. chat.py:221-224 does not raise on it: it appends `{"content": None}` to the history and returns `None` as `response_text` with the detected language. The model's generation outcome carries a string.
- Non-finite JSON numbers are not modelled. Python's `json.loads` accepts `NaN`, `Infinity` and `-Infinity` and reads `1e400` as `inf`; `Float(real)` holds none of them. Such a value for `is_code_mixed` is truthy and would take the code-mixed branch at chat.py:150.
- Json.SubscriptError: the texts are those of CPython 3.11 and later. Older versions word the `str` case as "string indices must be integers".
- Json.KeyErrorText: gives the single-quoted form, which is `repr(key)` only for keys without a quote, a backslash or a non-printable character; the keys looked up are fixed and of that kind.
- Chat.DetectLanguage: the detector does not normalise its record. A secondary language can come back with `is_code_mixed` false and any ratio (`Chat.DetectionIsNotNormalised`). A secondary language equal to the primary is accepted.
