# AI assistant web: a verified model of the chat core

This Dafny project models the logic behind a Flask chat assistant. It covers five pieces.

- **Chat state** (`app/models.py`). `ChatSession` is a class. It keeps a rolling window of
  at most `context_size` messages (20 by default), plus a response style and a persona. Both
  are chosen from the two preset registries `AI_STYLE_SETTINGS` and `AI_PERSONAS`.
- **Utilities** (`utils.py`):
  - `parse_notification_time` reads the first "N 초/분/시간 뒤" phrase and converts it to seconds;
  - `search_in_conversation` finds the messages that match a query and returns each with its
    neighbours;
  - `limit_conversation_history` truncates the history;
  - `validate_session_name` and `sanitize_filename` handle session names.
- **Session snapshots** (`services/session_service.py`). Named, timestamped copies of a
  transcript, one `.json` file each. The sessions directory is a class holding a map from
  file name to snapshot.
- **Speech preparation** (`services/tts_service.py`). `split_text` cuts the reply after every
  `.`, `!` and `?`, strips each piece, joins the pieces with single spaces and keeps at most
  3000 characters. `create_audio_response` refuses blank text and reports where the audio
  file went.
- **Completion request** (`app/services.py`). `generate_ai_response` picks the system
  instruction by persona and the token budget by response length, sends a system/user
  message pair, and strips the reply.

Modules follow the source files:

| Module | Models |
|---|---|
| `Text` | Python's `str.strip`, `str.isspace` (ASCII) and string order |
| `Results` | `Option` and `Result` |
| `Models` | `app/models.py` |
| `Utils` | `utils.py` |
| `SessionStore` | `services/session_service.py` |
| `Tts` | `services/tts_service.py` |
| `Completion` | `app/services.py` |

Outside calls become parameters:

- the clock reading that names a snapshot;
- the random id of an audio file;
- the regular-expression match of `search_in_conversation`, as `search(query, content)`;
- the speech synthesiser, as `synthesize(chunk)`;
- the language-model provider, as `complete(request)`.

## Model

| member | source | states |
|---|---|---|
| Text.Strip | utils.py:75 | `s.strip()` is empty exactly when `s` is all whitespace; otherwise it starts and ends with a non-space, and it is never longer than `s` (that it is the segment between the surrounding whitespace is `Text.StripIsSegment`) |
| Text.StripIsSegment | utils.py:75 | `s.strip()` is a segment `s[a..b]` of `s` with only whitespace before and after it, so stripping removes the surrounding whitespace and nothing else |
| Text.StripKeepsCharacters | utils.py:75 | stripping only removes characters: every character of the result occurs in the input |
| Text.StripOfTrimmed | app/services.py:25 | a reply without surrounding whitespace comes back from `strip()` unchanged |
| Text.StripIdempotent | services/tts_service.py:23-27 | stripping twice is stripping once |
| Text.StrLeTotal | services/session_service.py:47 | any two timestamps are ordered one way or the other by Python's string comparison |
| Text.StrLeTransitive | services/session_service.py:47 | Python's string order is transitive |
| Models.RegistryKeys | app/models.py:5-45 | the style registry has exactly the keys `concise`, `normal`, `detailed`, and the persona registry exactly `friendly`, `professional`, `cynical` |
| Models.Window | app/models.py:58-61 | the window of a history holds its last `min(len, n)` messages in their original order |
| Models.WindowAppend | app/models.py:58-61 | appending, then evicting the oldest message when over capacity, turns the window of `h` into the window of `h + [m]` |
| Models.ChatSession.constructor | app/models.py:48-56 | a fresh session has no messages, capacity 20, style `normal`, persona `professional`, and its restored flag unset |
| Models.ChatSession.AddMessage | app/models.py:58-68 | the message goes last; the oldest is evicted only when the window grows past capacity; the window stays the last `context_size` messages added; style, persona and capacity are unchanged |
| Models.ChatSession.GetContext | app/models.py:70-72 | the context is the last `min(n, context_size)` of the `n` messages added, in call order, and never longer than the capacity |
| Models.ChatSession.Clear | app/models.py:74-76 | the window is emptied; style, persona and capacity stay |
| Models.ChatSession.UpdateStyle | app/models.py:78-83 | a registry key becomes the style; any other string changes nothing; the style is always a registry key |
| Models.ChatSession.UpdatePersona | app/models.py:85-90 | a registry key becomes the persona; any other string changes nothing |
| Models.ChatSession.GetStyle | app/models.py:92-93 | the style returned is always a key of `AI_STYLE_SETTINGS` |
| Models.ChatSession.GetPersona | app/models.py:95-96 | returns the session's persona, which is always a key of `AI_PERSONAS` |
| Models.AddAll | app/models.py:47-68 | after any sequence of `add_message` calls on a fresh session, it holds exactly the last `min(n, 20)` messages, with the default style and persona |
| Utils.DigitRunEnd | utils.py:11 | `\d+` is greedy: the run of digits at a position ends at the first non-digit |
| Utils.UnitAt | utils.py:11 | a unit of the alternative `분\|초\|시간` reported at a position is spelled there in full |
| Utils.DecimalValue | utils.py:16 | `int()` of a digit run: 0 for no digits, and the last digit is the value's units digit |
| Utils.MatchAtSound | utils.py:11-12 | a match found at a position is a real match of the pattern: digits, optional whitespace, a unit word, optional whitespace, then `뒤` |
| Utils.MatchAtComplete | utils.py:11-12 | if the pattern matches at a position, the matcher finds that match, with the number the greedy digit run gives |
| Utils.FirstMatch | utils.py:12 | `re.search` finds the leftmost position where the pattern matches, and `None` exactly when no position from the start on matches |
| Utils.ParseNotificationTime | utils.py:9-27 | the result is `None` exactly when the text contains no "N unit 뒤" phrase; otherwise it is N times the unit's seconds (1, 60 or 3600) for the leftmost such phrase |
| Utils.ParseMinutesExample | utils.py:9-27 | "3분 뒤 알려줘" gives 180 seconds |
| Utils.ParseSecondsExample | utils.py:9-27 | "10초뒤" gives 10 seconds (whitespace is optional) |
| Utils.ParseGreetingExample | utils.py:9-27 | text with no time phrase gives `None` |
| Utils.HitAt | utils.py:41-46 | a hit carries the matching message and its index; it has a previous message exactly when it is not the first, and a next one exactly when it is not the last, and those are its neighbours in the transcript |
| Utils.Hits | utils.py:37-47 | the `results` list after the first `n` messages: at most `n` entries, each for an index below `n` (exactness is `Utils.HitsCorrect`) |
| Utils.HitsSound | utils.py:38-47 | every result is the context `{before, match, after, index}` of a message the search accepted |
| Utils.HitsIncreasing | utils.py:38-47 | the results come in transcript order, with strictly increasing indices |
| Utils.HitsComplete | utils.py:38-47 | every accepted message among those scanned has its context among the results |
| Utils.HitsCorrect | utils.py:38-47 | the hits are exactly the messages the search accepts, one per matching index, in increasing index order, each with its neighbours |
| Utils.SearchInConversation | utils.py:30-49 | a blank query gives no results; otherwise the result is the list of hits over the whole history |
| Utils.SliceFrom | utils.py:57 | Python's `h[start:]` is a suffix of `h`: a start in range keeps `len(h) - start` elements, a negative start keeps `-start`, a start past the end gives `[]`, and one before `-len(h)` gives all of `h` |
| Utils.LimitConversationHistory | utils.py:52-58 | the result is always a suffix of the history |
| Utils.LimitKeepsLast | utils.py:52-58 | for a positive bound `m`, the result is the last `min(len, m)` messages |
| Utils.LimitZeroKeepsAll | utils.py:56-57 | as written, a bound of 0 returns the whole history |
| Utils.LimitNegativeDropsPrefix | utils.py:56-57 | as written, a negative bound `-d` drops the first `d` messages |
| Utils.LimitConversationHistoryIntended | utils.py:52-58 | corrected truncation: exactly `min(len, max(m, 0))` of the most recent messages |
| Utils.IntendedAgreesForPositiveBound | utils.py:52-58 | the corrected truncation and the code agree for every positive bound |
| Utils.LimitZeroCounterexample | utils.py:56-57 | a one-message history limited to 0 keeps its message as written, and none when corrected |
| Utils.ValidateSessionName | utils.py:61-67 | a name is valid exactly when it is not blank and holds none of the nine characters `< > : " / \ \| ? *` |
| Utils.Replace | utils.py:74 | `replace` of one character changes exactly the occurrences of that character and nothing else |
| Utils.ReplaceInvalid | utils.py:72-74 | the replaced name has the same length and none of the nine characters |
| Utils.Sanitized | utils.py:70-75 | the sanitised name is a segment of the replaced name with only whitespace before and after it |
| Utils.SanitizeFilename | utils.py:70-75 | after replacing each of the nine characters in turn with `_` and stripping, the result is the stripped, replaced name and holds none of the nine characters |
| Utils.SanitizedIdempotent | utils.py:70-75 | a sanitised name has no invalid character and no surrounding whitespace, and sanitising it again changes nothing |
| Utils.SanitizedIsValidUnlessEmpty | utils.py:61-75 | a sanitised name passes `validate_session_name` exactly when it is not empty |
| SessionStore.SessionFilename | services/session_service.py:18 | the file name is `<name>_<timestamp>.json`; it starts with the name and ends with `.json`, so the listing picks it up |
| SessionStore.InfoOf | services/session_service.py:39-46 | a listing entry names its file and counts the snapshot's messages |
| SessionStore.SortedNewestFirst | services/session_service.py:47 | in the sorted listing, every entry is at least as new as every later one |
| SessionStore.InsertDesc | services/session_service.py:47 | inserting an entry into a newest-first list keeps it newest first, with the entry or the old head in front |
| SessionStore.InsertDescPermutes | services/session_service.py:47 | the insertion adds exactly that entry and loses none |
| SessionStore.SortByTimestampDesc | services/session_service.py:47 | the sort returns a permutation of its input, newest first |
| SessionStore.SameEntries | services/session_service.py:47 | the sorted listing has the same length and the same entries as the unsorted one |
| SessionStore.SessionDirectory.constructor | services/session_service.py:14-16 | the sessions directory as found: it exists or not, and a directory that does not exist holds no file (its `Valid` invariant, which `os.makedirs` in `save_session` keeps) |
| SessionStore.SessionDirectory.SaveSession | services/session_service.py:11-27 | the directory exists afterwards; the snapshot `{name, timestamp, messages}` is stored under the returned name, replacing any file of that name; no other file changes |
| SessionStore.SessionDirectory.CollectSessions | services/session_service.py:33-46 | one entry for each `.json` file and for nothing else, each carrying that file's name, session name, timestamp and message count |
| SessionStore.SessionDirectory.ListSessions | services/session_service.py:30-48 | a missing directory lists nothing; otherwise there is exactly one entry per `.json` file, each with its file's data, newest first |
| SessionStore.SessionDirectory.LoadSession | services/session_service.py:51-59 | a stored file gives back exactly the messages saved in it; a missing one is `NotFound` |
| SessionStore.SessionDirectory.DeleteSession | services/session_service.py:62-65 | the named file is gone, and every other file is unchanged; deleting a missing file changes nothing |
| SessionStore.SessionLifecycle | tests/test_session_service.py:12-23 | a saved transcript is listed with its message count and loads back unchanged; after deletion, loading it gives `NotFound` and the other files are as before |
| Tts.FirstTerminator | services/tts_service.py:21-25 | the position of the first `.`, `!` or `?`, with none before it; the length when there is none |
| Tts.FirstTerminatorAt | services/tts_service.py:21-25 | a terminator with none before it is the first one |
| Tts.PiecesConcat | services/tts_service.py:21-25 | cutting the text after each terminator loses and adds nothing: the pieces concatenate back to the text |
| Tts.PiecesLast | services/tts_service.py:21-27 | the piece left over when the loop ends holds no terminator |
| Tts.PiecesClosed | services/tts_service.py:21-25 | every piece but the last ends with a terminator and holds no other |
| Tts.StripEach | services/tts_service.py:24 | each collected sentence is its piece stripped |
| Tts.SentencesArePieces | services/tts_service.py:19-27 | the collected sentences are the stripped pieces of the text, the last piece only when it is not blank |
| Tts.SentencesTrimmed | services/tts_service.py:23-27 | every collected sentence is non-empty and neither starts nor ends with whitespace |
| Tts.SentencesAreStripped | services/tts_service.py:24-27 | stripping a collected sentence again changes nothing |
| Tts.NonBlankHasSentence | services/tts_service.py:15-27 | text that is not blank yields at least one sentence |
| Tts.ClosesAtTerminator | services/tts_service.py:23 | the test `char in [".", "!", "?"] and current_sentence.strip()` holds exactly when the character is a terminator |
| Tts.SentencesAtTerminator | services/tts_service.py:21-25 | closing a sentence at a terminator puts its stripped text in front of the sentences of the rest |
| Tts.SentencesWithoutTerminator | services/tts_service.py:26-27 | a tail with no terminator adds its stripped self, or nothing when it is blank |
| Tts.TerminatedIsNotBlank | services/tts_service.py:23 | text ending in a terminator is never blank, so `current_sentence.strip()` is true at every terminator |
| Tts.StepInside | services/tts_service.py:21-22 | adding a non-terminator to the current sentence keeps the found sentences followed by those still to come equal to the sentences of the text |
| Tts.StepAtTerminator | services/tts_service.py:21-25 | closing a sentence at a terminator keeps that account equal to the sentences of the text |
| Tts.LastSentence | services/tts_service.py:26-27 | once the loop ends, the found sentences plus the non-blank stripped tail are the sentences of the text |
| Tts.CollectSentences | services/tts_service.py:18-27 | the loop collects exactly the stripped, non-blank pieces of the text cut after each terminator, in order |
| Tts.Truncate | services/tts_service.py:29-31 | the chunk is a prefix of the joined text, of length `min(len, max_length)` |
| Tts.Join | services/tts_service.py:28 | `" ".join(sentences)` starts with the first sentence and is as long as the sentences together plus one space between each two |
| Tts.Chunk | services/tts_service.py:28-31 | the chunk is the joined sentences cut to at most `max_length` characters, a prefix of the joined text |
| Tts.SplitText | services/tts_service.py:18-31 | `split_text` returns exactly one chunk, the joined sentences cut to at most `max_length` characters |
| Tts.CreateAudioResponse | services/tts_service.py:12-51 | empty or blank text gives `None` without synthesis; otherwise the first chunk is synthesised, and the result is `/static/audio/response_<id>.mp3` when the file was written, `None` when it was not |
| Tts.AudioUrl | services/tts_service.py:36-43 | the URL is `/static/audio/`, then `response_`, the id and `.mp3`, exactly |
| Tts.NonBlankTextGivesChunk | services/tts_service.py:15-33 | non-blank text always reaches the synthesiser as a non-empty chunk of at most 3000 characters |
| Completion.SystemInstruction | app/services.py:9-18 | only persona `friendly` gets its own instruction; every other persona, including the registry persona `cynical`, gets the professional instruction |
| Completion.MaxTokens | app/services.py:14-21 | the token budget is 300 for `short`, 2000 for `long`, and 1000 for every other length |
| Completion.BuildRequest | app/services.py:15-24 | the request holds exactly two messages, the system instruction then the user's message, with the budget `MaxTokens(response_length)` from the table and the fixed model and sampling parameters |
| Completion.Tables | app/services.py:9-14 | `system_messages` has the keys `professional`, `friendly` and `creative`, where `creative` holds the professional instruction and `friendly` a different one; `max_tokens` has the keys `short`, `medium` and `long` with increasing budgets |
| Completion.GenerateAiResponse | app/services.py:8-25 | the answer is the provider's reply with its leading and trailing whitespace cut off (a segment of the reply with only whitespace around it): empty exactly when the reply is blank, and otherwise without surrounding whitespace |
| Completion.PersonaInstructionHonoured | app/services.py:9-13 | of the registry personas, a persona gets its own registry instruction exactly when it is `friendly` or `professional` |
| Completion.CreativeIsProfessional | app/services.py:12 | the `creative` entry exists but holds the professional instruction, because the registry has no `creative` persona |
| Completion.MaxTokensChoice | app/services.py:14-21 | every budget is one of the table's values, and only `short` and `long` move it away from the medium budget |
| Completion.AnswerIsTrimmedReply | app/services.py:25 | the answer consists of the reply's own characters, and a reply without surrounding whitespace comes back unchanged |

## Left out

- Logging, Flask routing (`app.py`, `app/__init__.py`, `app/routes.py`), `config.py`, PDF export (`services/pdf_service.py`), the conversation file store (`services/conversation_service.py`) and the browser scripts under `app/static/js` are not part of this model. They are I/O and presentation around the logic above; `config.py` also has its own style and persona tables, which `ChatSession` does not validate against.
- Text.IsSpace: covers only the ASCII whitespace of `str.isspace`. Python also treats Unicode spaces (for example U+00A0 and U+3000) as whitespace; the model does not.
- Utils.ParseNotificationTime: `\d` and `\s` are modelled as ASCII digits and ASCII whitespace. Python's `re` also matches Unicode digits and spaces. `int()` of a digit run is its decimal value.
- Utils.SearchInConversation: the case-insensitive regular-expression match is the parameter `search(query, content)`. Regex syntax, flags and invalid patterns (which raise) are not modelled.
- Utils.LimitConversationHistory: models the code as written, including its behaviour for a bound of 0 or below (`Utils.LimitZeroKeepsAll`, `Utils.LimitNegativeDropsPrefix`). The "at most `max_messages` messages" bound is stated only for the corrected variant (see Findings).
- Models.ChatSession.GetContext: returns the window as a value. The source returns the list object itself, so a caller that mutates it changes the session; that aliasing is not modelled.
- Models.ChatSession: the `_settings_restored` flag is only initialised; no shown code reads or sets it.
- SessionStore.SessionDirectory.SaveSession: the file name is a flat map key. The model ignores path-join semantics (a name containing `/` writes into a subdirectory), I/O errors, JSON encoding, and the formatting of `datetime.now()`, which is passed in as `timestamp`.
- SessionStore.SessionDirectory.ListSessions: does not state the relative order of entries with equal timestamps, because the directory yields names in an unspecified order. Files that are not valid JSON, or that lack a key, raise in the source and are not modelled.
- SessionStore.SessionDirectory.LoadSession: malformed files are not modelled; only present versus missing. Like `save_session`, it joins an unchecked `filename` onto the directory, so a name such as `../x` reaches a file outside it; the flat map key does not model that.
- SessionStore.SessionDirectory.DeleteSession: the same unchecked path join applies (`../x` deletes outside the directory); the model removes a map key only.
- Tts.CreateAudioResponse: `uuid4()` is the parameter `audioId`. NaverTTS, the file write and the existence check are the parameter `synthesize`, and every exception counts as `false`. The unused `style_settings` argument is dropped.
- Completion.GenerateAiResponse: the OpenAI client is the parameter `complete`. Network errors, a missing reply and the API key are not modelled. `temperature` and `top_p` are recorded as constants in the request.

## Findings

| source | as written | input that shows it | evidently intended | confidence | as-written member | corrected member |
|---|---|---|---|---|---|---|
| utils.py:56-57 | keeps the slice from `-max_messages` on; for a bound of 0 that slice starts at 0, so the whole history is kept, and a negative bound drops a prefix instead | a one-message history with `max_messages = 0` comes back with its message | at most `max(max_messages, 0)` of the most recent messages | low (a bound of 0 may never be passed); not executed | Utils.LimitZeroCounterexample | Utils.LimitConversationHistoryIntended |
