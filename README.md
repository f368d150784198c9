# SpeakStudio core, modelled in Dafny

SpeakStudio is a Streamlit app for Japanese speakers practising English and
Korean: daily conversation with a language model, shadowing (listen, repeat,
and compare the recording with the reference sentence), and roleplay. This
project models the deterministic heart of the app and proves properties of it:

- `Constants` (constants.dfy): the language table `LANGS` and the default
  language. It also covers the lookup that falls back to Korean for an
  unknown code (`get_lang_conf`) and the role prompts of `system_prompt_for`.
- `Corpus` (corpus.dfy): the English and Korean shadowing corpora, each with
  three tiers of thirty sentences.
- `Text` (text.dfy): the pieces of Python's `str` the code relies on: `in`,
  `sep.join`, `strip`, `split` and the decimal digits of a non-negative
  integer (the explicit sign of `f"{n:+d}"` is added in `Tts.RateString`). The Unicode primitives
  (NFC, `lower`, `\w`, `\s`) are parameters, bundled in `Text.Unicode`.
- `Normalize` (normalize.dfy): `normalize_for_compare`, and a corrected
  version of it (see Findings).
- `Content` (content.dfy): `_content_to_text`, which flattens an LLM
  message's content into text.
- `Tts` (tts.dfy): the speech-synthesis fallback chain:
  - Edge-TTS, whose output is rejected below 1024 bytes;
  - then gTTS;
  - then an optional ffmpeg conversion to WAV.

  It also covers the accumulation of Edge's streamed chunks, the rate string
  and the converter's acceptance test. The three providers are
  function-valued fields of `Tts.Providers`, so the model is deterministic
  in them.
- `Shadowing` (shadowing.dfy): the shadowing page. It covers:
  - the sentence catalog and its levels, and the id index built from them;
  - the option labels of the sentence picker;
  - the word diff rendered as HTML;
  - the feedback lines picked from the similarity score.
- `Chat` (chat.dfy): the offline reply that echoes the latest user message.

Imperative source code is modelled as methods, each proved equal to a
specification function whose properties are proved as lemmas. These
methods follow the source step by step; all but one carry the source's loop:

- `Content.ContentToText` (the loop over the parts)
- `Tts.EdgeAudioBytes` (the loop over the streamed chunks)
- `Tts.TtsSynthesize` (straight-line; its one loop is the stream loop, in
  `Tts.EdgeAudioBytes`)
- `Shadowing.DiffHtml` (the loop over the diff lines)
- `Shadowing.Feedback` (the `any(...)` loop)
- `Chat.LocalFallbackReply` (the backward scan)

Pure code is modelled as functions.

Points where the code behaves in a way worth stating outright:

- **Function-word tip.** The tip tests substrings (`w in text.lower()`), so
  "there" triggers it (`Shadowing.FunctionWordSubstring`).
- **Korean particles.** The feedback block has no rule for Korean particles.
- **gTTS failure.** A gTTS exception propagates to the caller; the model has
  it as `Tts.GttsFailed`.
- **Rate range.** The rate percentage is not range-checked, in the code or
  in the model.

## Model

| member | source | states |
|---|---|---|
| `Constants.LangConfFor` | functions.py:102-103 | A known language code gives its own `LANGS` entry. Any other code gives the default (Korean) entry. Every entry has at least one Edge voice, and every voice is non-empty. |
| `Constants.SystemPromptFor` | constants.py:278-285 | Every prompt, in every mode, contains the name of the language it is for. |
| `Constants.DailyPromptShape` | constants.py:280-282 | The daily-chat prompt names the language at two fixed positions and mentions "a Japanese learner". |
| `Constants.RoleplayPromptShape` | constants.py:283-284 | The roleplay prompt names the language at two fixed positions. |
| `Constants.SystemPromptNamesLanguage` | constants.py:280-284 | In daily chat and roleplay the prompt names the (possibly defaulted) language twice, at fixed positions. The daily prompt addresses a Japanese learner. |
| `Constants.SystemPromptUnknownLanguage` | constants.py:278-279 | An unknown language code gets exactly the default language's prompt, which mentions "Korean". |
| `Constants.SystemPromptOtherModes` | constants.py:285 | Shadowing, and every mode other than daily chat and roleplay, gets the generic tutor prompt. |
| `Constants.SystemPromptsDistinct` | constants.py:278-285 | The three modes give three different prompts. English and Korean give different prompts in every mode. |
| `Corpus.EnglishTiers` | constants.py:42-139 | Each English tier holds thirty non-empty sentences. |
| `Corpus.KoreanTiers` | constants.py:144-241 | Each Korean tier holds thirty non-empty sentences. |
| `Corpus.CorporaHaveThirtyPerTier` | constants.py:42-241 | Both corpora have exactly the tiers easy, normal and hard, with thirty non-empty sentences each. |
| `Text.IsInfixIff` | main.py:347 | The substring test (`w in s`) succeeds exactly when some position of `s` starts a copy of `w`. |
| `Text.IsInfix` | main.py:347 | A substring is never longer than the text it occurs in. |
| `Text.JoinLength` | functions.py:61 | A join is as long as its pieces together plus one separator between each neighbouring pair. |
| `Text.Strip` | functions.py:61 | `strip` never lengthens the text, and its result neither starts nor ends with whitespace. |
| `Text.StripSpec` | functions.py:61 | `strip` returns a contiguous slice of its input; everything it removes on either side is whitespace. |
| `Text.Split` | main.py:105 | `split()` yields only non-empty words without whitespace. |
| `Text.SplitJoin` | main.py:105 | Splitting words joined by single spaces gives the same words back. |
| `Text.SplitSpace` | main.py:105 | Whitespace in front of a text starts no word. |
| `Text.SplitCons` | main.py:105 | A non-whitespace character joins the first word when the text starts with one, and forms a word of its own otherwise. |
| `Text.SplitStripLeft` | main.py:105 | Leading whitespace does not change the words. |
| `Text.SplitAllSpace` | main.py:105 | Text made only of whitespace has no words. |
| `Text.SplitTrailingSpace` | main.py:105 | Trailing whitespace does not change the words. |
| `Text.SplitStrip` | main.py:105 | Stripping does not change the words. |
| `Text.SplitStripRight` | main.py:105 | Removing trailing whitespace does not change the words. |
| `Text.ConcatSplit` | main.py:105 | The words, run together, are exactly the text's non-whitespace characters in order: `split` loses nothing but whitespace. |
| `Text.DecimalRoundTrip` | functions.py:163 | The decimal spelling of a number consists of digits and reads back as that number. |
| `Normalize.RemovePunct` | functions.py:245-249 | Punctuation removal never lengthens the text and leaves only word characters, whitespace and Hangul syllables. Text holding only those comes back unchanged. |
| `Normalize.RemovePunctChar` | functions.py:249 | A single character survives exactly when it is a word character, whitespace or a Hangul syllable. |
| `Normalize.RemovePunctAppend` | functions.py:249 | Removal works character by character, keeping the survivors in order. |
| `Normalize.RemovePunctIdempotent` | functions.py:249 | Removing punctuation twice removes nothing more. |
| `Normalize.CollapseSpaces` | functions.py:250 | Collapsing never lengthens the text. It empties only empty text. A leading whitespace run becomes one plain space. |
| `Normalize.CollapseSpacesLast` | functions.py:250 | A trailing whitespace run becomes one plain space, and a text ending in non-whitespace keeps its last character: no space is added or left at the end. |
| `Normalize.CollapseSpacesShape` | functions.py:250 | After collapsing, every whitespace character is a plain space and no two are adjacent. |
| `Normalize.CollapseSpacesFixed` | functions.py:250 | Text already spaced with single plain spaces is left unchanged. |
| `Normalize.CollapseSpacesIdempotent` | functions.py:250 | Collapsing twice changes nothing more. |
| `Normalize.SplitCollapse` | functions.py:250 | Collapsing changes only the spacing: the text splits into the same words before and after. |
| `Normalize.NonSpaceCollapse` | functions.py:250 | Collapsing keeps every non-whitespace character, in order. |
| `Normalize.JoinSplitSpaced` | functions.py:250 | Text with single plain spaces and no space at either end equals its words joined by single spaces. |
| `Normalize.CollapseStripIsJoin` | functions.py:247-251 | Collapsing then stripping, as the corrected normaliser does, equals joining the words with single spaces. |
| `Normalize.CollapseSpacesKept` | functions.py:249-250 | Collapsing keeps text free of punctuation. |
| `Normalize.NormalizeForCompare` | functions.py:247-251 | The normalised text holds only word characters, Hangul syllables and single plain spaces. |
| `Normalize.NormalizeForCompareNotIdempotent` | functions.py:248-250 | As written, "hello !" normalises to "hello ", which normalises again to "hello". |
| `Normalize.NormalizeStripped` | functions.py:247-251 | The corrected normaliser has the same shape guarantees, and no space at either end. |
| `Normalize.NormalizeStrippedIdempotent` | functions.py:247-251 | The corrected normaliser is idempotent, given that NFC and lower-casing fix its output. |
| `Normalize.NormalizedIsFixed` | functions.py:247-251 | Text already in normal form is its own normal form. |
| `Content.PartText` | functions.py:52-60 | Only a dict part contributes a text. The part is skipped exactly when it is not a dict, or its text's `str()` raises. |
| `Content.ContentText` | functions.py:46-65 | A string comes back unchanged, not stripped. The flattened text of a list neither starts nor ends with whitespace. |
| `Content.NonEmpty` | functions.py:61 | The filtered list holds no empty string. |
| `Content.ContentToText` | functions.py:46-65 | The loop over the parts computes the flattened text `Content.ContentText` specifies. |
| `Content.PartTextsAppend` | functions.py:51-60 | Texts are collected part by part, in list order. |
| `Content.NonEmptyAppend` | functions.py:61 | The empty-text filter keeps the other texts in order. |
| `Content.SilentPartIgnored` | functions.py:52-60 | Some parts do not change the result, wherever they appear: a non-dict part, a dict without text or with `None` or "" as text, and a dict whose text cannot be rendered. |
| `Content.NoTextGivesEmpty` | functions.py:49-61 | A list without any non-empty text flattens to "". |
| `Content.TextPartsJoined` | functions.py:49-61 | Parts with non-empty texts flatten to those texts joined by newlines, then stripped. |
| `Tts.ChunkAudio` | functions.py:167-169 | A chunk adds audio only when it is an "audio" dict with bytes data, and then adds exactly that data. |
| `Tts.AudioOf` | functions.py:165-171 | The buffer holds at least the last chunk's audio. |
| `Tts.EdgeAudioBytes` | functions.py:165-171 | The stream loop returns exactly the concatenated audio of the chunks. |
| `Tts.AudioOfAppend` | functions.py:166-170 | Chunk audio is concatenated in stream order. |
| `Tts.NonAudioChunkIgnored` | functions.py:167-169 | Some chunks add nothing, wherever they appear: a non-dict chunk, a chunk whose type is not "audio", and a chunk whose data is not bytes. |
| `Tts.RateString` | functions.py:163 | The rate string always has an explicit sign matching the percentage, and ends in "%". |
| `Tts.RateStringRoundTrip` | functions.py:163 | The rate string reads back as the percentage it was made from. |
| `Tts.Mp3ToWav` | functions.py:183-201 | A conversion result exists exactly when a non-empty ffmpeg path is set, ffmpeg exits with 0 and it writes more than 44 bytes. The result is then ffmpeg's output. |
| `Tts.ResolveVoice` | functions.py:223-225 | A resolved voice is never empty. An explicit non-empty voice always wins. |
| `Tts.VoiceAlwaysResolves` | functions.py:223-225 | A voice always resolves. Without an explicit voice, or with an empty one, the first voice of the language is used, and an unknown code gets the Korean voice. |
| `Tts.AcceptedEdge` | functions.py:222-231 | Edge audio is kept only when Edge was tried, and only when it is at least 1024 bytes long. |
| `Tts.Synthesize` | functions.py:204-241 | Synthesis fails exactly when no Edge audio is kept and gTTS fails. A result is WAV only when WAV was asked for, and MP3 otherwise. |
| `Tts.TtsSynthesize` | functions.py:204-241 | The step-by-step method returns what `Tts.Synthesize` gives. |
| `Tts.Mp3Source` | functions.py:222-234 | Edge audio is kept exactly when Edge was tried, did not raise and produced at least 1024 bytes. It is then the streamed audio; otherwise gTTS supplies the MP3. |
| `Tts.ResultFormat` | functions.py:233-241 | The result is a gTTS failure exactly when no MP3 was obtained. It is WAV exactly when WAV was asked for and the converter accepted. Otherwise it is the MP3, unchanged, as audio/mpeg. |
| `Tts.EmptyEdgeFallsBack` | functions.py:227-234 | When Edge streams nothing, whatever gTTS returns is returned, as audio/mpeg. |
| `Tts.LargeEdgeKept` | functions.py:227-229 | 2000 bytes of Edge audio are returned unchanged as audio/mpeg. |
| `Tts.NoConverterKeepsMp3` | functions.py:188-189 | Without ffmpeg, asking for WAV changes nothing and the MP3 is returned. |
| `Tts.ForceGttsIgnoresEdge` | functions.py:222 | With `force_gtts`, neither Edge's behaviour nor the rate affects the result. |
| `Tts.RateOnlyAffectsEdge` | functions.py:222-234 | When Edge audio is not kept, the rate does not affect the result. |
| `Shadowing.Ids` | main.py:128-159 | The ids, one per sentence, in catalog order. |
| `Shadowing.IdIndex` | main.py:265 | Every sentence's id is a key of the index, and each key maps to a sentence with that id. |
| `Shadowing.IdIndexKeys` | main.py:265 | Every key of the index is the id of some sentence. |
| `Shadowing.IdIndexLastWins` | main.py:265 | A sentence whose id no later sentence repeats is the one its id maps to. |
| `Shadowing.IdIndexDistinct` | main.py:265 | With distinct ids, the index maps each id to its sentence and holds no other keys. |
| `Shadowing.CatalogConsistent` | main.py:128-159 | The catalog ids are distinct. The levels offer every sentence exactly once, in catalog order. Every offered id is found in the index. |
| `Shadowing.Preview` | main.py:190 | A preview is at most 63 characters. Text of at most 60 characters is shown whole. Longer text shows its first 60 characters followed by "...". |
| `Shadowing.FormatSentenceOption` | main.py:188-191 | A label starts with the id and " : ", and its length is bounded. A sentence of at most 60 characters appears whole. A longer one is cut to its first 60 characters followed by "...". |
| `Shadowing.CatalogOptionLabels` | main.py:188-191 | The three easy sentences (two are exactly 60 characters) appear whole. The two harder ones show their first 60 characters followed by "...". |
| `Shadowing.Word` | main.py:106-113 | A token of two or more characters is its two-character code followed by the word. |
| `Shadowing.RenderToken` | main.py:106-113 | A diff line is dropped exactly when it is a "? " hint line. Otherwise its word appears in the rendered piece. |
| `Shadowing.DiffHtml` | main.py:103-114 | The method splits both texts, renders each `ndiff` line in order and joins the pieces with single spaces. |
| `Shadowing.Rendered` | main.py:105-113 | There are never more pieces than diff lines. |
| `Shadowing.RenderedAppend` | main.py:105-113 | Pieces come out line by line, in diff order. |
| `Shadowing.RenderedCount` | main.py:105-113 | Every line except a hint line gives exactly one piece. |
| `Shadowing.HintLineIgnored` | main.py:110-111 | A hint line leaves the output unchanged wherever it occurs. |
| `Shadowing.KeepTokens` | main.py:112-113 | Builds the unchanged-word lines, one per word, as two spaces followed by the word. |
| `Shadowing.KeepToken` | main.py:112-113 | An unchanged-word line renders as the bare word. |
| `Shadowing.SharedWordsRendered` | main.py:105-113 | When all words are shared, the pieces are the words themselves. |
| `Shadowing.SharedWordsUnmarked` | main.py:103-114 | When all words are shared, the output is the words joined by single spaces, without any markup, and splits back into the words. |
| `Shadowing.ChangedWordsMarked` | main.py:106-109 | A removed word is wrapped in a "del" span and an added word in an "add" span. |
| `Shadowing.TierOf` | main.py:341-346 | The lowest band is exactly the scores below 0.5. The highest band is exactly the scores of at least 0.75. |
| `Shadowing.TierMonotone` | main.py:341-346 | A higher score never gets a lower band. |
| `Shadowing.TierMessage` | main.py:341-346 | Every band has a non-empty message. |
| `Shadowing.TierMessagesDistinct` | main.py:342-346 | The three bands have three different messages. |
| `Shadowing.AnyInfix` | main.py:347 | The `any(...)` test holds exactly when one of the words occurs as a substring. |
| `Shadowing.FeedbackLines` | main.py:340-348 | There are one or two lines, and the first is the band message. The weak-form tip is added exactly when a function word occurs as a substring of the lower-cased reference. |
| `Shadowing.Feedback` | main.py:340-348 | The method with the `any(...)` loop yields the specified lines. |
| `Shadowing.FunctionWordSubstring` | main.py:347-348 | "there" gets the tip through "the". "yes" gets only the band message. |
| `Chat.LocalFallbackReply` | main.py:57-68 | The backward scan with `break` echoes exactly the content of the latest user message. |
| `Chat.LastUserContent` | main.py:59-63 | A non-empty echoed text is always the content of some user message. |
| `Chat.FallbackReplyText` | main.py:64-68 | The reply opens with the local-reply marker and closes the Japanese quotation. |
| `Chat.LatestUserTaken` | main.py:59-63 | The reply echoes the content of the last message whose role is "user". |
| `Chat.NoUserMessage` | main.py:59-63 | Without any user message the echoed text is "". |
| `Chat.LaterNonUserIgnored` | main.py:59-63 | Non-user messages after the last user message do not change the reply. |
| `Chat.ReplyEchoes` | main.py:64-68 | The echoed text appears twice in the reply, at two fixed positions. |
| `Chat.ReplyInjective` | main.py:64-68 | Different echoed texts give different replies. |

## Left out

- The Streamlit user interface, the audio recorder, and the speech recognition (`recognize_google`) are not modelled; they are I/O.
- `similarity_score` (difflib's `SequenceMatcher.ratio`) is not modelled: it is a library algorithm. The feedback model takes the score as a parameter.
- Python floats are modelled as reals, so scores are compared without rounding.
- `difflib.ndiff` is not modelled: `Shadowing.DiffHtml` takes it as a function parameter, and the lemmas speak about the diff lines it returns.
- Several Unicode primitives are parameters of `Text.Unicode` rather than tables, so Unicode-specific results hold for any such tables: `unicodedata.normalize("NFC")`, `str.lower`, the regular-expression classes `\w` and `\s`, and `str.isspace` (used by `strip` and `split`).
- Edge-TTS, gTTS and ffmpeg are function-valued fields of `Tts.Providers`. The model does not capture their side effects, the ffmpeg command line, asynchrony (`asyncio.run`), or a provider giving different answers to the same request.
- The detection of the ffmpeg executable (`_detect_ffmpeg_exe`) is not modelled; its result is the `ffmpegPath` field.
- `Tts.Mp3ToWav`: the sample rate and channel count are passed to the converter but are not checked by the model.
- `Tts.EmptyEdgeFallsBack`: an empty Edge stream is described as streaming `[]` for every voice and rate. The lemma therefore does not speak about a stream that is empty for only some voices.
- `Chat.Message`: a message's content is the text its f-string rendering gives. How non-string contents render is not modelled.
- The roleplay scenarios table (`ROLEPLAY_SCENARIOS_KO`), model names and other constants the core does not use are not modelled.
- `Corpus`: the tables are copied as they are. Seven Korean entries mix in Japanese: in the normal tier, constants.py:198 and 204; in the hard tier, constants.py:211, 223 and 233 (partly) and 238-239 (mostly or wholly). The model keeps them unchanged.
- `Shadowing.FormatSentenceOption` requires the id to be in the index. The source raises `KeyError` otherwise; `Shadowing.CatalogConsistent` shows that every id the picker offers is present.

## Findings

| source | as written | input that shows it | evidently intended | confidence | as-written member | corrected member |
|---|---|---|---|---|---|---|
| functions.py:247-251 | strips whitespace before removing punctuation and collapsing spaces, so a space next to trailing or leading punctuation survives at the edge | "hello !" gives "hello ", and normalising again gives "hello" | a normal form with no space at either end, stable under re-normalisation wherever NFC and lower-casing leave the normalised text unchanged (they need not: U+1100, "!", U+1161 normalises to a decomposed jamo pair that a second NFC pass composes to U+AC00, for either version) | high (not executed) | `Normalize.NormalizeForCompareNotIdempotent` | `Normalize.NormalizeStrippedIdempotent` |
