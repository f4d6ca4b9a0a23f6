# Patient registration form — Dafny model

This project models a browser-based patient registration form written in
React. The controller of the `PatientForm` component holds the following state:

- a five-key string record `formData` (name, age, phone, address, language);
- an error map `errors`;
- voice-capture state, made of `activeField` and `isListening`, plus the
  language handed to the speech recognizer.

It reacts to input edits, to presses of the per-field microphone buttons, to
the callbacks of the browser's SpeechRecognition object, and to submits.
`App` shows the form while no patient identifier is held and the identifier
display otherwise. The identifier generator always returns `"P00122"`.

Modules, one per concern of the source:

- `Wrappers`: `Option`, for the JavaScript `null`.
- `JsText`: the ECMAScript whitespace set and `String.prototype.trim`
  (ECMAScript 2023, sections 12.2, 12.3 and 22.1.3.32). `Trim` is proved
  equal to the unique infix with blank surroundings and non-whitespace ends.
- `JsNumber`: the string-to-number conversion that `formData.age < 1` performs
  (ECMAScript 2023, section 7.1.4.1.1, StringNumericLiteral). It covers
  decimal, exponent, `0x`/`0o`/`0b` and `Infinity` forms, and NaN for
  anything else. It also models the NaN-aware comparisons of section 7.2.13.
- `PatientIdGenerator`: `generatePatientId`. The clock and random readings
  are parameters that it ignores.
- `PatientFormRules`: the pure part of the form. It contains the field
  rules, `validateForm`'s error map, the transcript append, the alert texts
  and the language table. It also contains the whole controller as a
  transition function: `Step` takes a `FormState` and an `Event` and gives the
  new state plus an `Effect` (nothing, an alert, or the record handed to
  `onSubmit`). `Run` applies a sequence of events, and lemmas over `Run`
  state properties of every sequence of events.
- `PatientFormController`: class `PatientForm`, whose fields are the
  component's state cells. Each handler updates them in place, and its
  postcondition equates the new `State()` with `Step` of the old state, so
  every lemma about `Step` and `Run` applies to the class.
- `AppShell`: class `App` with `patientId` and `patientData`, plus the
  mounted form, which is `null` while the display shows. Its invariant is
  that a form is mounted exactly while `patientId` is falsy.

Behaviours of the code that a reader of the form might not expect, each
stated by a lemma:

- **Non-numeric age passes.** `formData.age < 1` converts the string, so
  `"abc"` becomes NaN, both comparisons are false, and the age rule passes;
  only the empty string is caught by `!formData.age`, and a blank age such
  as `" "` converts to 0 and fails (`AgeCoercionQuirks`, `NaNAgePasses`).
- **A press while listening never retargets.** Whichever field's button is
  pressed while `isListening` holds, `handleVoiceInput` stops the
  recognizer, clears `isListening` and sets `activeField` to null
  (src/components/PatientForm.jsx:100-110; `SecondPressWhileListeningStops`).
- **The end of a session keeps the target.** `onend` and `onerror` clear
  only `isListening`; `activeField` keeps the field that was armed
  (src/components/PatientForm.jsx:59-66; `EndKeepsTarget`). So a second press
  stops capture only while the session is still running; once the session
  has ended by itself, the next press starts a new one
  (`PressAfterNaturalEndRestarts`).
- **One retry after InvalidStateError.** When `recognition.start()` throws
  an `InvalidStateError`, the handler schedules a single timer that arms the
  field again and calls `start()` once more; if that throws too, capture is
  cleared (src/components/PatientForm.jsx:121-132; `RetryFires`).

## Model

| member | source | states |
|---|---|---|
| PatientIdGenerator.GeneratePatientId | src/utils/generateId.js:1-6 | the identifier has six characters, 'P' followed by five digits |
| PatientIdGenerator.IdIgnoresClockAndRandom | src/utils/generateId.js:2-5 | any two calls agree, whatever the clock and random readings, and the result is exactly "P00122" |
| PatientIdGenerator.IdIsNonEmpty | src/utils/generateId.js:5 | the identifier is non-empty, so it is truthy |
| JsText.Trim | src/components/PatientForm.jsx:157 | `String.prototype.trim`, which the form applies to transcripts and to the name, phone and address checks: the result is never longer than the input; TrimShape, TrimIsInfix and TrimCharacterized pin it down |
| JsText.TrimStartShape | src/components/PatientForm.jsx:157 | leading trim leaves the suffix after a blank prefix, and that suffix starts with non-whitespace |
| JsText.TrimEndShape | src/components/PatientForm.jsx:157 | trailing trim leaves the prefix before a blank suffix, and that prefix ends with non-whitespace |
| JsText.TrimShape | src/components/PatientForm.jsx:157 | trim's result has no whitespace at either end, and it is empty iff the input is blank |
| JsText.TrimIsInfix | src/components/PatientForm.jsx:157 | trim's result is an infix of the input, with blank text on both sides |
| JsText.TrimCharacterized | src/components/PatientForm.jsx:157 | any infix with blank surroundings and non-whitespace ends is the trim: an independent characterization |
| JsText.TrimOfTrimmed | src/components/PatientForm.jsx:54 | trimming text without whitespace at its ends changes nothing |
| JsText.TrimIdempotent | src/components/PatientForm.jsx:54 | trimming twice is trimming once |
| JsText.TrimBlankPrefix | src/components/PatientForm.jsx:54 | leading whitespace added before the text does not survive trim |
| JsText.TrimBlankSuffix | src/components/PatientForm.jsx:54 | trailing whitespace added after the text does not survive trim |
| JsText.TrimJoin | src/components/PatientForm.jsx:48-54 | trimming two non-blank parts joined by a separator keeps the separator and strips only the outer ends |
| JsNumber.StringToNumber | src/components/PatientForm.jsx:161 | the number `formData.age` becomes when compared with 1 and 150: a string that is empty after trimming is 0, and NaN only ever comes from a non-blank string; DecimalDigitsToNumber, BlankIsZero and SurroundingWhitespaceIgnored characterize it further |
| JsNumber.LessThan | src/components/PatientForm.jsx:161 | `age < 1`: false for NaN and +Infinity, true for -Infinity, the real comparison otherwise |
| JsNumber.GreaterThan | src/components/PatientForm.jsx:161 | `age > 150`: false for NaN and -Infinity, true for +Infinity, the real comparison otherwise |
| JsNumber.DecimalDigitsToNumber | src/components/PatientForm.jsx:161 | a non-empty decimal digit string converts to its decimal value |
| JsNumber.NaNIsUnordered | src/components/PatientForm.jsx:161 | both `<` and `>` against NaN are false |
| JsNumber.BlankIsZero | src/components/PatientForm.jsx:161 | a blank string converts to 0, not NaN |
| JsNumber.SurroundingWhitespaceIgnored | src/components/PatientForm.jsx:161 | the conversion ignores the whitespace around the literal |
| PatientFormRules.FormData.With | src/components/PatientForm.jsx:142-145 | the spread update sets one key and leaves the other four as they were |
| PatientFormRules.LanguageTableWellFormed | src/components/PatientForm.jsx:190-201 | ten options with pairwise distinct codes, the first being the default 'en-IN' |
| PatientFormRules.InitialState | src/components/PatientForm.jsx:6-17 | the four text fields are empty, language is 'en-IN', no active field, not listening, no errors |
| PatientFormRules.NameInError | src/components/PatientForm.jsx:157 | the name rule fails at least on the empty name; ValidationErrorsSpec and BlankRules tie it to a blank name |
| PatientFormRules.AgeInError | src/components/PatientForm.jsx:161 | the age rule fails on the empty string and passes whenever the conversion gives NaN; AgeBoundaries and AgeCoercionQuirks give the accepted range |
| PatientFormRules.PhoneInError | src/components/PatientForm.jsx:165 | the phone rule fails whenever the untrimmed value is shorter than 10 characters; PhoneRule and PhoneBoundaries give the converse |
| PatientFormRules.AddressInError | src/components/PatientForm.jsx:169 | the address rule fails at least on the empty address; BlankRules ties it to a blank address |
| PatientFormRules.ValidationErrors | src/components/PatientForm.jsx:154-171 | newErrors never holds a language key |
| PatientFormRules.ValidationErrorsSpec | src/components/PatientForm.jsx:155-171 | newErrors has a key exactly for each failing rule, holding that rule's non-empty message |
| PatientFormRules.ErrorsMatchRules | src/components/PatientForm.jsx:155-171 | any map holding exactly the failing rules' messages equals validateForm's newErrors |
| PatientFormRules.ValidIffEveryRulePasses | src/components/PatientForm.jsx:173-174 | the form is valid iff the name, age, phone and address rules all pass |
| PatientFormRules.EmptyIffNoKey | src/components/PatientForm.jsx:174 | a key count of zero means no field has a key |
| PatientFormRules.BlankRules | src/components/PatientForm.jsx:157-171 | name and address are in error iff they hold only whitespace |
| PatientFormRules.PhoneRule | src/components/PatientForm.jsx:165-167 | phone passes iff it is not blank and its untrimmed length is at least 10 |
| PatientFormRules.PhoneBoundaries | src/components/PatientForm.jsx:165 | ten digits pass; nine digits and '' fail; one digit padded with nine spaces passes |
| PatientFormRules.AgeOfDigits | src/components/PatientForm.jsx:161-163 | for a decimal digit string, age is in error iff its value is outside 1..150 |
| PatientFormRules.NaNAgePasses | src/components/PatientForm.jsx:161 | an age that converts to NaN passes the rule |
| PatientFormRules.AgeBoundaries | src/components/PatientForm.jsx:161-163 | "1" and "150" pass; "0", "151" and "" fail |
| PatientFormRules.AgeCoercionQuirks | src/components/PatientForm.jsx:161 | "abc" converts to NaN and passes; a whitespace-only age converts to 0 and fails |
| PatientFormRules.ErrorMessage | src/components/PatientForm.jsx:158-170 | the message stored for each of the four checked fields, all non-empty: 'Name is required', 'Valid age is required', 'Valid phone number is required', 'Address is required' |
| PatientFormRules.IsValid | src/components/PatientForm.jsx:174 | the form is valid exactly when newErrors is the empty map |
| PatientFormRules.ClearError | src/components/PatientForm.jsx:146-151 | a set error becomes ''; an absent or already empty one leaves the map unchanged; other keys are kept |
| PatientFormRules.AppendTranscript | src/components/PatientForm.jsx:47-54 | the new field value has no whitespace at either end |
| PatientFormRules.AppendTranscriptEmpty | src/components/PatientForm.jsx:48-54 | the new value is empty iff both the old value and the transcript are blank |
| PatientFormRules.AppendTranscriptCases | src/components/PatientForm.jsx:48-54 | empty value: trim(transcript); both with text: from the value's first non-whitespace to the transcript's last one, joined by one space; one side blank: the other side trimmed |
| PatientFormRules.TranscriptJoinsWithOneSpace | src/components/PatientForm.jsx:48-54 | a trimmed value and a trimmed transcript are joined by exactly one space |
| PatientFormRules.ApplyTranscript | src/components/PatientForm.jsx:43-56 | with no active field formData is unchanged; otherwise only the active field changes, to the appended value |
| PatientFormRules.RecognitionErrorAlert | src/components/PatientForm.jsx:68-76 | 'aborted' raises no alert; 'not-allowed', 'no-speech' and 'audio-capture' raise their fixed texts; any other kind raises the generic text with the kind appended |
| PatientFormRules.AlertsIdentifyTheErrorKind | src/components/PatientForm.jsx:68-76 | different error kinds never raise the same alert |
| PatientFormRules.MakeRecord | src/components/PatientForm.jsx:182-186 | the record is the five formData keys plus the identifier and the registration date |
| PatientFormRules.InputChange | src/components/PatientForm.jsx:140-152 | the edited key gets the value, the others keep theirs, errors are cleared by ClearError, and voice state is untouched |
| PatientFormRules.MicPress | src/components/PatientForm.jsx:92-137 | without a recognizer: only the unsupported alert. While listening: capture stops and no field is armed, whichever button was pressed. Otherwise: the field is armed and the form language is handed over, and a non-InvalidState start failure disarms it. formData and errors are never touched |
| PatientFormRules.RetryFires | src/components/PatientForm.jsx:123-132 | the retry arms the field again, or clears the capture state if start throws |
| PatientFormRules.Submit | src/components/PatientForm.jsx:177-188 | errors are replaced by newErrors; a record is emitted iff the form is valid, with formData spread into it and the generator's identifier; nothing else changes |
| PatientFormRules.Step | src/components/PatientForm.jsx:19-188 | no event changes whether a recognizer exists |
| PatientFormRules.Run | src/components/PatientForm.jsx:5-190 | the component's life as a sequence of handler calls, each applied to the state the previous one left: one effect per event, in order; the trace lemmas below state its properties |
| PatientFormRules.OnlyEditsAndTranscriptsWriteFields | src/components/PatientForm.jsx:43-56 | in any event sequence without edits or transcripts, formData stays as it was |
| PatientFormRules.LastEditWins | src/components/PatientForm.jsx:142-145 | a field's last edit decides its value as long as no transcript follows it |
| PatientFormRules.EmittedRecordsAreValid | src/components/PatientForm.jsx:180-186 | in any event sequence, every record handed to onSubmit passes validation and carries "P00122" |
| PatientFormRules.StepKeepsErrorsWellFormed | src/components/PatientForm.jsx:146-173 | every event keeps each error value either '' or its field's message, and never creates a language key |
| PatientFormRules.ErrorsStayWellFormed | src/components/PatientForm.jsx:16 | from the mounted form, the error map stays well formed along any event sequence |
| PatientFormRules.NoRecognizerNoCapture | src/components/PatientForm.jsx:95-98 | without a recognizer, user actions never change the capture state, and every mic press raises the unsupported alert |
| PatientFormRules.RecognizerNeverChanges | src/components/PatientForm.jsx:79 | whether a recognizer exists is fixed for the life of the form |
| PatientFormRules.SubmitIsRepeatable | src/components/PatientForm.jsx:154-175 | a second submit without an edit in between leaves the same state and makes the same decision |
| PatientFormRules.StaleTranscriptDropped | src/components/PatientForm.jsx:44-45 | a transcript arriving with no active field changes nothing |
| PatientFormRules.EndKeepsTarget | src/components/PatientForm.jsx:59-66 | onend and onerror stop listening and leave activeField armed |
| PatientFormRules.SecondPressWhileListeningStops | src/components/PatientForm.jsx:100-110 | press, start, transcript, then any field's press leaves capture off with no field, and the transcript is written to the first field |
| PatientFormRules.SecondPressOnArmedFieldStops | src/components/PatientForm.jsx:100-110 | the same scenario with the field already armed, a trace the source can produce: the armed field never changes before the second press, which stops capture, and the transcript reaches that field |
| PatientFormRules.PressAfterNaturalEndRestartsSameField | src/components/PatientForm.jsx:59-62 | a natural end and a new press on the same armed field: the field stays armed throughout, the new session is not yet listening, it uses the current language, and the transcript was written |
| PatientFormRules.PressAfterNaturalEndRestarts | src/components/PatientForm.jsx:59-62 | after a natural end the field stays armed, and the next press arms the newly pressed field with the current language |
| PatientFormRules.ValidSubmission | src/components/PatientForm.jsx:177-186 | the valid example emits its record with "P00122" and leaves no errors |
| PatientFormRules.EmptyNameSubmission | src/components/PatientForm.jsx:157-159 | an empty name blocks the submit; the only error is the name's and formData is unchanged |
| PatientFormController.PatientForm.constructor | src/components/PatientForm.jsx:6-17 | the mounted form is in the initial state |
| PatientFormController.PatientForm.HandleInputChange | src/components/PatientForm.jsx:140-152 | the new state is Step's for the edit: one key set, its error cleared if it was set |
| PatientFormController.PatientForm.HandleVoiceInput | src/components/PatientForm.jsx:92-137 | the new state and the alert are Step's for the press; an alert is raised iff there is no recognizer; a press while listening stops capture |
| PatientFormController.PatientForm.RetryTimerFires | src/components/PatientForm.jsx:123-132 | the new state is Step's for the retry |
| PatientFormController.PatientForm.OnStart | src/components/PatientForm.jsx:34-37 | listening becomes true, the armed field is kept |
| PatientFormController.PatientForm.OnResult | src/components/PatientForm.jsx:39-57 | formData becomes ApplyTranscript of the old one, as Step says |
| PatientFormController.PatientForm.OnEnd | src/components/PatientForm.jsx:59-62 | listening becomes false, the armed field is kept |
| PatientFormController.PatientForm.OnError | src/components/PatientForm.jsx:64-77 | listening becomes false and the returned alert is RecognitionErrorAlert of the kind |
| PatientFormController.PatientForm.ValidateForm | src/components/PatientForm.jsx:154-175 | errors are replaced by newErrors; the result is true iff every rule passes; nothing else changes |
| PatientFormController.PatientForm.HandleSubmit | src/components/PatientForm.jsx:177-188 | the state and the emitted record are Step's for the submit; formData is unchanged; a record is returned iff the form is valid |
| AppShell.Truthy | src/App.jsx:31 | Truthy is false exactly for null and '', so `!patientId` is true exactly for those two values, the falsy ones the cell can hold |
| AppShell.ScreenFor | src/App.jsx:31-39 | the form is rendered iff patientId is falsy, otherwise the display with patientId and patientData |
| AppShell.GeneratedIdShowsDisplay | src/App.jsx:31-39 | a record carrying the generated identifier always leads to the display |
| AppShell.EmptyIdKeepsForm | src/App.jsx:31 | an identifier of '' would keep the form on screen |
| AppShell.App.constructor | src/App.jsx:6-7 | both cells are null and a fresh form in its initial state is shown |
| AppShell.App.Render | src/App.jsx:31-39 | a form stays mounted with its state while patientId is falsy, is dropped when it becomes truthy, and is mounted fresh when it becomes falsy again |
| AppShell.App.HandleFormSubmit | src/App.jsx:9-12 | patientData becomes the record and patientId its identifier |
| AppShell.App.HandleReset | src/App.jsx:14-17 | both cells become null and the form is shown; after the display, it is a fresh form in its initial state |
| AppShell.App.SubmitForm | src/App.jsx:32 | a valid form hands its record to handleFormSubmit and App switches to the display of "P00122"; an invalid one stays mounted with only its errors replaced |

## Left out

- Rendering (JSX, class names, icons, labels): presentation only. The whole
  of src/components/PatientIdDisplay.jsx is presentation, and so is not part
  of this model.
- src/utils/voiceRecognition.js is not part of this model: the form does not
  import it.
- The SpeechRecognition engine: its callbacks are events (`Step`) and
  methods (`OnStart`, `OnResult` and so on) that the environment may call in
  any order. The `continuous`, `interimResults` and `maxAlternatives`
  settings are not modelled. Only the first alternative's transcript is
  taken, as `event.results[0][0]` takes it.
- `console.log`, `console.error` and `alert`: these are I/O. An alert is
  returned as a value (`Effect.Alert`, or the `Option<string>` result of a
  handler).
- The React effect that recreates the recognizer whenever `activeField`
  changes, and aborts the old one on cleanup, is not modelled as a
  recreation. The abort's consequences are the `RecognitionErrored("aborted")`
  and `RecognitionEnded` events, which are part of the event alphabet. Three
  things differ:
  - a callback here reads the current `activeField`, whereas the source's
    closure reads the value from the render that created its recognizer;
  - the language handed to a recognizer is not reset when the recognizer is
    recreated;
  - a press that changes `activeField` (src/components/PatientForm.jsx:113-117)
    makes the effect's cleanup (lines 81-88) abort the recognizer that was
    just started, so in the source a press on a newly targeted field ends
    in an "aborted" error and delivers no transcript. The model lets the
    environment deliver a `ResultReceived` after such a press, so some
    traces of the model, for example a `MicPressed` for a field other than
    the armed one followed by a result, cannot occur in the source.
- The 100 ms `setTimeout` retry after an `InvalidStateError`: it is a
  separate `RetryTimerFired` event. The delay and the `abort()` before it
  are not modelled, and traces are not forced to contain the retry after
  such a press.
- `Date.now()`, `Math.random()` and `new Date().toISOString()`: clock and
  randomness. The first two are parameters that the generator ignores, and
  the registration date is a string parameter of the submit.
- JsNumber.StringToNumber: finite values are kept as exact reals. Rounding
  to the nearest IEEE-754 double is not modelled. So an age such as
  `"0.99999999999999999"` is in error here, while the browser rounds it to
  1 and accepts it. Likewise, `"1e400"` is a large finite value here, not
  Infinity.
- JavaScript strings are sequences of UTF-16 code units, and Dafny strings
  are sequences of Unicode scalar values. Lengths, such as the phone rule's
  `length < 10`, therefore differ for characters outside the Basic
  Multilingual Plane.
- `maxlength` on the Aadhaar input: enforced by the DOM, not by the code.
  `e.preventDefault()` on submit is a browser effect only.
- `handleInputChange` takes the key from the input's `name` attribute. Every
  input carries one of the five keys (the Aadhaar input carries `phone`), so
  the key is a `Field` parameter.
