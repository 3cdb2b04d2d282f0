# ELISA voice assistant: a model of its conversation core

ELISA is a Spanish-speaking desktop assistant (`elisa.py`). The user speaks or
types a turn. The assistant then:

- cleans a spoken transcript;
- remembers the user's name the first time the user introduces themselves;
- answers with a canned greeting or with a language model's reply;
- logs both lines of the turn and says the reply aloud;
- runs a desktop command when the text starts with a known prefix.

This project models that core in Dafny and proves what it promises:

- **`PyStr`**: the Python `str` operations the core relies on. These are
  `lower`, `strip`, `split()`, `' '.join`, `capitalize`, `title`,
  `startswith`, `in`, `replace(p, "")`, `split(sep)[-1]` and `str(n)`.
  Case and whitespace are modelled for the characters up to U+00FF (ASCII
  and Latin-1, which covers Spanish text). The letters ª, µ, º, ß and ÿ
  count as cased (lower-case), as they do in Python, but the model leaves
  their case mapping alone. Every character above U+00FF is treated as a
  caseless non-space character.
- **`Transcript`**: the transcript cleaner `limpiar_texto_transcrito`, the
  countdown of the recording worker `WorkerGrabacion.run`, and the text the
  worker delivers. The microphone and Whisper are one `Capture` value.
- **`Dialogue`**: name capture, the greeting, the prompt and the fallback
  apology of `generar_respuesta`. The language model is an oracle
  `llm: String -> LlmResult`.
- **`Commands`**: the prefix table of `ejecutar_comando`, its two URL
  builders and the scan. Each action's effect on the machine is an `Effect`
  value. Whether carrying it out raises is an oracle `env: Effect -> bool`.
- **`Controller`**: the main window `AsistenteVirtualGUI` as a class whose
  fields the handlers update. The fields are:
  - the user's name;
  - the conversation list;
  - the lines appended to the conversation file;
  - the input line;
  - the record button's enabled flag and label;
  - the avatar;
  - a recording-active flag;
  - the texts handed to speech;
  - the effects of the commands that ran;
  - the prefixes logged as failed.

  The conversation pane is modelled as a view, `Shown(conversation)`: each
  logged message as `agregar_mensaje` classifies it (speaker and text).

Behaviour of the code that the model keeps:

- The name is the text after the **last** occurrence of the trigger phrase
  (`split(trigger)[-1]`).
- The countdown status lines are logged as assistant lines
  ("ELISA: Grabando... 15s"). This happens on every recording, so even a
  failed transcription leaves sixteen lines behind.
- `finalizar_grabacion` sets the avatar back to still before it handles the
  text.
- The dispatcher goes on scanning after an action raises. A zero-argument
  launch given a parameter raises `TypeError`, so "abrir chrome por favor"
  launches nothing. "ir a" and "reproducir" with nothing after them raise too.
- `estado_actual` is set once and never updated. The visible phase is the
  avatar, the record button and the recording flag.
- A captured name can be empty ("soy" at the end of the text). It still
  blocks every later capture, and the prompt then says "Usuario:".
- A recording whose stop flag cuts the countdown short never emits
  `finished`, so the record button stays disabled.

## Model

| member | source | states |
|---|---|---|
| PyStr.Lower | elisa.py:459 | `lower()` keeps the length, maps each character to its lower-case form, and leaves no upper-case character |
| PyStr.Strip | elisa.py:133 | `strip()` keeps exactly the characters between the leading and the trailing whitespace; the result has no whitespace at either end |
| PyStr.StripEmpty | elisa.py:412-413 | a text strips to the empty text exactly when it is all whitespace |
| PyStr.StripTrimmed | elisa.py:381 | stripping a text without whitespace at its ends leaves it unchanged |
| PyStr.StripAfterSpace | elisa.py:385 | stripping a space followed by a trimmed text gives that text back |
| PyStr.StripSpacePrefix | elisa.py:381 | leading whitespace makes no difference once the text is stripped |
| PyStr.Split | elisa.py:133 | `split()` yields only words: non-empty runs without whitespace; with `SplitAtSpace` and `SplitOfWord` this fixes the words of every text |
| PyStr.SplitAtSpace | elisa.py:133 | any whitespace character cuts the text in two: the words of the whole are the words before it followed by the words after it, however many spaces surround it |
| PyStr.SplitOfWord | elisa.py:133 | a word splits into itself |
| PyStr.Join | elisa.py:133 | `' '.join`: the words with one space between neighbours, as `JoinSingleSpaced` and `SplitJoin` state |
| PyStr.JoinSplit | elisa.py:133 | splitting a single-spaced text and joining its words with `' '` gives the text back, so `split()` loses nothing but whitespace |
| PyStr.SplitJoin | elisa.py:133 | splitting words joined by single spaces gives the same words back |
| PyStr.JoinSingleSpaced | elisa.py:133 | words joined with `' '` give a text with no whitespace at its ends and only single spaces between non-space characters |
| PyStr.Collapse | elisa.py:133 | `' '.join(s.strip().split())` is single-spaced and has the same words as `s` (`SplitStrip`), which `SplitAtSpace` determines for any spacing |
| PyStr.SplitStrip | elisa.py:133 | `strip()` loses no word: the stripped text splits into the same words as the text |
| PyStr.StripPadding | elisa.py:133 | a text is its leading whitespace, its stripped form and its trailing whitespace, in that order |
| PyStr.StripSides | elisa.py:133 | everything `strip()` removes from either end is whitespace |
| PyStr.SplitPadded | elisa.py:133 | whitespace on either side of a text adds no words |
| PyStr.SplitSpacesBefore | elisa.py:133 | leading whitespace adds no words |
| PyStr.SplitSpacesAfter | elisa.py:133 | trailing whitespace adds no words |
| PyStr.SplitAllSpace | elisa.py:133 | a text made only of whitespace has no words |
| PyStr.CollapseSingleSpaced | elisa.py:133 | collapsing a text that is already single-spaced leaves it unchanged |
| PyStr.Capitalize | elisa.py:134 | `capitalize()` keeps the text up to case, with only the first character upper-case |
| PyStr.CapitalizeSingleSpaced | elisa.py:133-134 | capitalizing moves no whitespace, so a single-spaced text stays single-spaced |
| PyStr.Title | elisa.py:464 | `title()` keeps the text up to case; each run of cased characters starts upper-case and goes on lower-case, where ª, µ, º, ß and ÿ count as cased |
| PyStr.TitleOrdinal | elisa.py:464 | `'ªb'.title()` is `'ªb'`: the ordinal indicator is cased, so the letter after it stays lower-case |
| PyStr.TitleTrimmed | elisa.py:464 | title-casing keeps a trimmed text trimmed |
| PyStr.StartsWith | elisa.py:515 | `s.startswith(p)`: `s` is at least as long as `p` and its first characters, as many as `p` has, are `p`; also used for the tests at elisa.py:378, 382 and 510 |
| PyStr.PrefixOfPrefix | elisa.py:478 | a text that starts with `x + y` starts with `x` |
| PyStr.FindFrom | elisa.py:463 | the search returns the first occurrence at or after the start, and none occurs before it |
| PyStr.Contains | elisa.py:463 | `p in s` holds exactly when the search finds an occurrence, which `Find` states is the first one |
| PyStr.Remove | elisa.py:132 | `replace(p, "")`, by definition Python's left-to-right scan that deletes non-overlapping occurrences; `RemoveEffect` and `RemoveShorter` bound its result |
| PyStr.RemoveEffect | elisa.py:132 | `replace(p, "")` changes nothing when `p` does not occur, and otherwise shortens the text by at least one `p` |
| PyStr.RemoveShorter | elisa.py:132 | `replace(p, "")` never lengthens the text |
| PyStr.SplitLast | elisa.py:464 | `split(sep)[-1]`: the piece after the last cut of Python's left-to-right split, as `SplitLastSpec` states; for a separator that cannot overlap itself, which holds for all three triggers, that is the text after the last occurrence (`SplitLastAfterLast`, `NameAfterLastOccurrence`) |
| PyStr.SplitLastSpec | elisa.py:464 | `split(sep)[-1]` is a suffix free of `sep`; it is the whole text when `sep` does not occur, and otherwise follows an occurrence of `sep` |
| PyStr.SplitLastAfterLast | elisa.py:464 | when the separator cannot overlap itself and occurs, the last piece is the text after its last occurrence, and no occurrence starts later |
| PyStr.OccurrencesApart | elisa.py:464 | two occurrences of a separator that cannot overlap itself are at least its length apart |
| PyStr.OverlapBorder | elisa.py:464 | two overlapping occurrences make a proper suffix of the separator equal to a prefix of it |
| PyStr.SplitLastLowercase | elisa.py:464 | the last piece of a lower-case text is lower case |
| PyStr.StripAbsent | elisa.py:464 | a phrase absent from a text is absent from the stripped text |
| PyStr.DecimalString | elisa.py:82 | `str(n)` is a non-empty string of decimal digits |
| PyStr.DecimalRoundTrip | elisa.py:82 | `str(n)` for a natural number parses back to `n` |
| Transcript.JunkTokensNonEmpty | elisa.py:130 | every junk token is non-empty and starts with a non-space character |
| Transcript.RemoveTokens | elisa.py:131-132 | the tokens deleted one after another in list order; `RemoveTokensOfSpace` states that whitespace is unchanged |
| Transcript.Cleaned | elisa.py:129-134 | the cleaned transcript, whose properties `CleanTranscript` states |
| Transcript.CleanTranscript | elisa.py:129-134 | the loop deletes the tokens in list order; the result is single-spaced, capitalized, equal up to case to the collapsed text, and empty for a whitespace-only input |
| Transcript.RemoveTokensOfSpace | elisa.py:131-132 | deleting tokens that start with a non-space character leaves whitespace unchanged |
| Transcript.SpliceKeepsToken | elisa.py:131-132 | deleting "gracias" from "gracgraciasias" splices "gracias" back together, so the cleaner does not promise a token-free text |
| Transcript.RemoveSkips | elisa.py:132 | positions where the token does not start are kept by `replace` |
| Transcript.RemoveAtStart | elisa.py:132 | a token at the start of the text is deleted |
| Transcript.Status | elisa.py:82 | the status line for a number of seconds, whose form and read-back `StatusReadBack` states |
| Transcript.StatusReadBack | elisa.py:82 | a status line is "Grabando... " then the seconds then "s", and the seconds read back |
| Transcript.CountdownStatuses | elisa.py:73-83 | the initial "Grabando... 15s", then one line per live check from 15 down, at most fifteen |
| Transcript.Ticks | elisa.py:77-83 | `n` status lines counting down one second at a time |
| Transcript.RunCountdown | elisa.py:71-83 | the loop emits exactly the countdown statuses; it completes exactly when the stop flag is clear on all fifteen checks |
| Transcript.Delivered | elisa.py:106-127 | the delivered text is single-spaced and capitalized |
| Transcript.RunRecording | elisa.py:68-93 | a failed start emits the initial status and finishes with ""; otherwise the countdown statuses, and `finished` (with the cleaned transcript, or "" after a failure) exactly when the countdown completed |
| Dialogue.Greeting | elisa.py:471 | the greeting that names the user, whose use `RespondSpec` and `GreetingAtMostOnce` state |
| Dialogue.ReplyText | elisa.py:482-491 | the model's `response`, or the apology when the call raises, as `RespondSpec` states |
| Dialogue.NameAfter | elisa.py:464-468 | the text after the trigger, stripped and title-cased, as `NameAfterShape` and `NameAfterLastOccurrence` state |
| Dialogue.TriggersSelfOverlapFree | elisa.py:463-468 | none of the three trigger phrases can overlap itself |
| Dialogue.NameAfterLastOccurrence | elisa.py:463-468 | a name is read from the text after the last occurrence of its trigger, and no occurrence of the trigger starts later |
| Dialogue.GreetingTurn | elisa.py:470 | the turn captures a name longer than one character, so the greeting replaces the model; `RespondSpec` and `GreetingAtMostOnce` state its effect |
| Dialogue.Addressee | elisa.py:478 | "El usuario <name> te dice:" for a non-empty name, else "Usuario:", as `PromptShape` states |
| Dialogue.CapturedName | elisa.py:459-468 | the name after a turn, as `NameDetection`, `NameShape` and `NameWriteOnce` state |
| Dialogue.Prompt | elisa.py:476-480 | the prompt sent to the model, whose form `PromptShape` states |
| Dialogue.Respond | elisa.py:457-491 | the reply to a turn, as `RespondSpec` states |
| Dialogue.FirstTrigger | elisa.py:462-468 | picks the first trigger, in priority order, that occurs in the text, and no earlier trigger occurs |
| Dialogue.NameDetection | elisa.py:459-468 | with no name known, a name is set exactly when some trigger occurs; it comes from the first occurring trigger in priority order |
| Dialogue.NameShape | elisa.py:464-468 | a captured name is title-cased, trimmed, and free of its trigger phrase up to case |
| Dialogue.NameAfterShape | elisa.py:464 | the text after the last occurrence of a phrase, stripped and title-cased, is title-cased, trimmed and free of that phrase |
| Dialogue.NameOfPiece | elisa.py:464 | stripping and title-casing a lower-case text free of a phrase keeps it free of that phrase |
| Dialogue.PromptShape | elisa.py:476-480 | the prompt starts with the persona and ends with the input and the instruction; after the persona it reads "El usuario <name> te dice: " when a non-empty name is known and "Usuario: " otherwise |
| Dialogue.PromptParts | elisa.py:476-480 | where the persona, the addressee and the input with the instruction sit in the prompt |
| Dialogue.RespondSpec | elisa.py:457-491 | the model is consulted, with the prompt, exactly on non-greeting turns; the reply is the greeting, the model's response, or exactly the apology when the model raises |
| Dialogue.NameWriteOnce | elisa.py:462 | once a name is known, even an empty one, no later turn changes it |
| Dialogue.NoCaptureNoName | elisa.py:462-468 | a session whose turns hold no trigger leaves the name unset |
| Dialogue.FirstCaptureWins | elisa.py:462-468 | the session's name is the one captured by the first turn that holds a trigger |
| Dialogue.GreetingAtMostOnce | elisa.py:470-473 | the greeting is given at most once per session, and never once a name is known |
| Commands.SiteUrl | elisa.py:510 | the address starts with "http" or "www" and ends with the parameter; it is the parameter itself exactly when that already starts with "http" or "www", and otherwise exactly "https://" followed by the parameter |
| Commands.SiteUrlIdempotent | elisa.py:510 | building an address from a built address changes nothing |
| Commands.SearchUrl | elisa.py:511 | the search address is the fixed base followed by the query, unescaped |
| Commands.SearchUrlInjective | elisa.py:511 | different queries give different search addresses |
| Commands.Call | elisa.py:517-521 | an action is called with the parameter when there is one; the call raises exactly when that does not fit the action's arity |
| Commands.Param | elisa.py:517-518 | the parameter is the stripped rest of the text, absent exactly when the rest is whitespace |
| Commands.Matches | elisa.py:515 | the lower-cased text starts with the entry's prefix; `OnePrefixMatches` states that at most one entry matches |
| Commands.Attempt | elisa.py:517-521 | the effect of calling the matching entry's action with the stripped parameter, or none when the call raises, as `LaunchFires` and `BrowseFires` state |
| Commands.Fires | elisa.py:514-522 | the entry matches, its action accepts the parameter, and carrying out the effect does not raise, as `LaunchFires` and `BrowseFires` state |
| Commands.Dispatched | elisa.py:514-525 | the effect of the first entry that fires, which `Execute` returns |
| Commands.DispatchFailures | elisa.py:514-525 | the prefixes logged before the scan stops, which `Execute` returns and `ScanTriesOne` bounds to at most one |
| Commands.FirstFiring | elisa.py:514-522 | the first entry in table order that matches and whose action does not raise, and none before it fires |
| Commands.Failures | elisa.py:523-524 | one logged failure at most per entry scanned, and only prefixes the text starts with are logged |
| Commands.Execute | elisa.py:502-525 | returns `True` exactly when some entry fires, with that entry's effect; the logged failures are the matching entries before it that raised |
| Commands.OnePrefixMatches | elisa.py:506-512 | no text starts with two prefixes of the table |
| Commands.FailuresOfMatch | elisa.py:514-524 | a scan logs at most one failure: exactly the prefix of the matching entry when its action raises, and nothing when it fires |
| Commands.FailuresNone | elisa.py:514-515 | entries that do not match log nothing |
| Commands.ScanTriesOne | elisa.py:514-525 | a scan tries at most one action; when a command runs, no failure was logged |
| Commands.LaunchFires | elisa.py:507-509 | a launch command runs exactly when nothing but whitespace follows its prefix and starting the program does not raise |
| Commands.BrowseFires | elisa.py:510-511 | a site or search command runs exactly when some text follows its prefix and opening the page does not raise |
| Controller.UserLine | elisa.py:414 | the logged user line, which `ClassifyUserLine` states is shown as the user's |
| Controller.AssistantLine | elisa.py:419 | the logged assistant line, which `ClassifyAssistantLine` states is shown as the assistant's |
| Controller.Classify | elisa.py:378-385 | how the pane reads a message, as `ClassifyUserLine` and `ClassifyAssistantLine` state |
| Controller.ClassifyUserLine | elisa.py:382-385 | "Tú: t" with a stripped `t` is shown as the user's, with text `t` |
| Controller.ClassifyAssistantLine | elisa.py:378-381 | "ELISA: t" is shown as the assistant's, with `t` stripped |
| Controller.StatusShown | elisa.py:436-437 | a status line is shown as the assistant's, unchanged |
| Controller.WelcomeSpoken | elisa.py:186-188 | the only ": " of the welcome line follows the tag, so `split(": ")[1]`, the text said aloud, is exactly the welcome |
| Controller.WelcomeNoSeparator | elisa.py:186 | the welcome text holds no ": " |
| Controller.WelcomeShown | elisa.py:186-187 | the welcome line is shown as the assistant's, with the welcome text |
| Controller.Shown | elisa.py:378-385 | the pane shows one entry per logged message, as it classifies that message |
| Controller.AssistantLinesStep | elisa.py:436-437 | one more status gives one more assistant line, at the end |
| Controller.TurnShown | elisa.py:414-419 | a turn adds to the pane exactly the user's entry and then the assistant's entry |
| Controller.AssistantWindow.constructor | elisa.py:170-188 | no name, no recording, the welcome logged, saved and said aloud |
| Controller.AssistantWindow.AddMessage | elisa.py:369-372 | appends exactly the message to the log and to the file; earlier entries are unchanged |
| Controller.AssistantWindow.ClearConversation | elisa.py:527-530 | the log is empty afterwards (so clearing twice is clearing once), and the file is untouched |
| Controller.AssistantWindow.Speak | elisa.py:493-500 | the avatar talks and the text is handed to speech |
| Controller.AssistantWindow.SpeechFinished | elisa.py:498-499 | the avatar is still again |
| Controller.AssistantWindow.GenerateReply | elisa.py:457-491 | sets the name as name detection does, and returns the reply and prompt that `Respond` describes |
| Controller.AssistantWindow.Say | elisa.py:419-420 | logs the assistant line and says the reply |
| Controller.AssistantWindow.Reply | elisa.py:414-420 | logs "Tú: t" then "ELISA: r" and says `r`, the reply `Respond` gives |
| Controller.AssistantWindow.RunCommand | elisa.py:423 | records the effect of the command the scan runs and the failures it logs |
| Controller.AssistantWindow.Converse | elisa.py:446-455 | a turn: exactly the two lines, the spoken reply, then the command |
| Controller.AssistantWindow.SendMessage | elisa.py:410-423 | a whitespace-only input changes nothing; otherwise the stripped text is one turn, the input is cleared, and the pane gains exactly the two entries |
| Controller.AssistantWindow.StartRecording | elisa.py:425-438 | changes nothing while recording; otherwise the avatar talks and the button is disabled and relabelled |
| Controller.AssistantWindow.ShowStatus | elisa.py:436-437 | a status becomes one assistant line |
| Controller.AssistantWindow.EndRecording | elisa.py:442-444 | the button is enabled and relabelled, and the avatar is still |
| Controller.AssistantWindow.FinishRecording | elisa.py:440-455 | the button is always re-enabled; an empty text changes nothing else; a non-empty one is exactly one turn |
| Controller.AssistantWindow.ShowStatuses | elisa.py:436-437 | each status, in order, becomes one assistant line, in the log and in the file |
| Controller.AssistantWindow.VoiceTurn | elisa.py:68-93 | changes nothing while recording; otherwise logs and saves the statuses, then (when the countdown completes or the start fails) re-enables the button and runs the delivered text as a turn if it is non-empty; the whole new state is given in each case, and speech, commands and failures change only with a turn |

## Left out

- The speech-to-text, language-model, text-to-speech, audio playback and
  microphone engines (Whisper, Ollama, gTTS, pygame, sounddevice). They are
  foreign libraries, so the model keeps only their outcomes: `Capture`,
  `LlmResult` and the `env` oracle.
- `mejorar_calidad_audio`: floating-point normalisation and filtering of the
  audio buffer.
- The threads, signals, `stop`/`terminate` and `closeEvent`. These are about
  concurrency. The signals of one recording are modelled in the order they
  arrive (`VoiceTurn`). A stop that arrives mid-countdown is modelled only
  through the number of checks that find the flag clear.
- `WorkerHablar`, which synthesises and plays the speech. The model records
  only the text handed to it (`spoken`) and its `finished` signal
  (`SpeechFinished`).
- File I/O. The conversation file is modelled as the lines appended to it,
  without timestamps and without write failures. The temporary audio files
  are left out.
- The Qt widgets: layout, styles, GIF loading, the HTML inserted into the
  pane, the separator and auto-scroll. The pane is the view
  `Shown(conversation)`, not a separate widget state.
- The real effects of `subprocess.Popen` and `webbrowser.open`. Only the
  dispatch decision and the `Effect` (program or address) are modelled.
- Logging, apart from the dispatcher's failed prefixes.
- Case mapping and whitespace beyond U+00FF. Those characters are treated as
  caseless non-space characters.
- PyStr.Title: does not upper-case µ, ß and ÿ at the start of a run of cased
  characters. Python maps them outside Latin-1 or to two characters (ß
  becomes "Ss"), which the one-to-one model of case keeps out; the model
  leaves them unchanged but still counts them as cased.
- PyStr.Capitalize: leaves a leading µ, ß or ÿ unchanged, for the same
  reason.
- Commands.SearchUrl: the query is not URL-escaped, just as in the code.
