/**
  The pure part of the patient-form controller of
  src/components/PatientForm.jsx: the five-key form record, the field
  rules of validateForm, the transcript append of onresult, the alert
  texts, the language table, and the controller as a transition function
  over its whole state. Every state update of the component becomes one
  event; the class in PatientFormController is proved to follow Step.
 */
module PatientFormRules {
  import opened Wrappers
  import opened JsText
  import opened JsNumber
  import opened PatientIdGenerator

  /** The keys of formData. The Aadhaar input is bound to `phone`, so there
      is no sixth key. */
  datatype Field = Name | Age | Phone | Address | Language

  /** formData: every value is a string, the age included. */
  datatype FormData = FormData(name: string, age: string, phone: string, address: string, language: string) {

    function Get(f: Field): (v: string) {
      match f
      case Name => name
      case Age => age
      case Phone => phone
      case Address => address
      case Language => language
    }

    /** `{ ...this, [f]: v }` */
    function With(f: Field, v: string): (r: FormData)
      ensures r.Get(f) == v
      ensures forall g :: g != f ==> r.Get(g) == Get(g)
    {
      match f
      case Name => this.(name := v)
      case Age => this.(age := v)
      case Phone => this.(phone := v)
      case Address => this.(address := v)
      case Language => this.(language := v)
    }
  }

  const DefaultLanguage: string := "en-IN"

  /** The state formData starts from when the form is mounted. */
  const InitialFormData: FormData := FormData("", "", "", "", DefaultLanguage)

  // ---------------------------------------------------------------------
  // The language table

  datatype LanguageOption = LanguageOption(code: string, displayName: string)

  const Languages: seq<LanguageOption> := [
    LanguageOption("en-IN", "English"),
    LanguageOption("hi-IN", "हिंदी (Hindi)"),
    LanguageOption("pa-IN", "ਪੰਜਾਬੀ (Punjabi)"),
    LanguageOption("ta-IN", "தமிழ் (Tamil)"),
    LanguageOption("te-IN", "తెలుగు (Telugu)"),
    LanguageOption("bn-IN", "বাংলা (Bengali)"),
    LanguageOption("mr-IN", "मराठी (Marathi)"),
    LanguageOption("gu-IN", "ગુજરાતી (Gujarati)"),
    LanguageOption("kn-IN", "ಕನ್ನಡ (Kannada)"),
    LanguageOption("ml-IN", "മലയാളം (Malayalam)")
  ]

  /** Ten options with distinct codes, the first of them the default. */
  lemma LanguageTableWellFormed()
    ensures |Languages| == 10
    ensures forall i, j :: 0 <= i < j < |Languages| ==> Languages[i].code != Languages[j].code
    ensures Languages[0].code == DefaultLanguage
  {
    var codes := seq(|Languages|, k requires 0 <= k < |Languages| => Languages[k].code);
    assert codes == ["en-IN", "hi-IN", "pa-IN", "ta-IN", "te-IN", "bn-IN", "mr-IN", "gu-IN", "kn-IN", "ml-IN"];
    forall i, j | 0 <= i < j < |Languages| ensures Languages[i].code != Languages[j].code {
      assert codes[i] == Languages[i].code && codes[j] == Languages[j].code;
      assert i in {0, 1, 2, 3, 4, 5, 6, 7, 8} && j in {1, 2, 3, 4, 5, 6, 7, 8, 9};
    }
  }

  // ---------------------------------------------------------------------
  // Validation

  const NameRequired: string := "Name is required"
  const AgeRequired: string := "Valid age is required"
  const PhoneRequired: string := "Valid phone number is required"
  const AddressRequired: string := "Address is required"

  /** `!formData.name.trim()` */
  predicate NameInError(name: string)
    ensures name == "" ==> NameInError(name)
  {
    Trim(name) == ""
  }

  /** `!formData.age || formData.age < 1 || formData.age > 150`: the string
      is compared with numbers, so it goes through StringToNumber, and a
      NaN makes both comparisons false. */
  predicate AgeInError(age: string)
    ensures age == "" ==> AgeInError(age)
    ensures StringToNumber(age).NaN? ==> !AgeInError(age)
  {
    age == "" || LessThan(StringToNumber(age), 1.0) || GreaterThan(StringToNumber(age), 150.0)
  }

  /** `!formData.phone.trim() || formData.phone.length < 10`: the length is
      that of the untrimmed value. */
  predicate PhoneInError(phone: string)
    ensures |phone| < 10 ==> PhoneInError(phone)
  {
    Trim(phone) == "" || |phone| < 10
  }

  /** `!formData.address.trim()` */
  predicate AddressInError(address: string)
    ensures address == "" ==> AddressInError(address)
  {
    Trim(address) == ""
  }

  /** The message validateForm stores for a field in error. */
  function ErrorMessage(f: Field): (m: string)
    ensures f != Language ==> m != ""
  {
    match f
    case Name => NameRequired
    case Age => AgeRequired
    case Phone => PhoneRequired
    case Address => AddressRequired
    case Language => ""
  }

  /** Whether a field's rule fails; `language` has no rule. */
  predicate InError(fd: FormData, f: Field) {
    match f
    case Name => NameInError(fd.name)
    case Age => AgeInError(fd.age)
    case Phone => PhoneInError(fd.phone)
    case Address => AddressInError(fd.address)
    case Language => false
  }

  /** newErrors of validateForm: one entry per failing rule, holding that
      rule's message. */
  function ValidationErrors(fd: FormData): (e: map<Field, string>)
    ensures Language !in e
  {
    map f | f in {Name, Age, Phone, Address} && InError(fd, f) :: ErrorMessage(f)
  }

  /** newErrors holds a key exactly for each failing rule, and the value is
      that rule's non-empty message. */
  lemma ValidationErrorsSpec(fd: FormData)
    ensures forall f :: f in ValidationErrors(fd) <==> InError(fd, f)
    ensures forall f :: f in ValidationErrors(fd) ==>
      ValidationErrors(fd)[f] == ErrorMessage(f) && ValidationErrors(fd)[f] != ""
  {
  }

  /** `Object.keys(newErrors).length === 0` */
  predicate IsValid(fd: FormData)
    ensures IsValid(fd) <==> ValidationErrors(fd) == map[]
  {
    |ValidationErrors(fd)| == 0
  }

  /** A map holding exactly the failing rules' messages is validateForm's
      newErrors. */
  lemma ErrorsMatchRules(e: map<Field, string>, fd: FormData)
    requires Name in e <==> NameInError(fd.name)
    requires Age in e <==> AgeInError(fd.age)
    requires Phone in e <==> PhoneInError(fd.phone)
    requires Address in e <==> AddressInError(fd.address)
    requires Language !in e
    requires forall f :: f in e ==> e[f] == ErrorMessage(f)
    ensures e == ValidationErrors(fd)
  {
    var v := ValidationErrors(fd);
    forall f ensures f in e <==> f in v {
      match f
      case Name =>
      case Age =>
      case Phone =>
      case Address =>
      case Language =>
    }
  }

  /** The form is valid exactly when each of the four rules passes. */
  lemma ValidIffEveryRulePasses(fd: FormData)
    ensures IsValid(fd) <==>
      !NameInError(fd.name) && !AgeInError(fd.age) && !PhoneInError(fd.phone) && !AddressInError(fd.address)
  {
    EmptyIffNoKey(ValidationErrors(fd));
  }

  lemma EmptyIffNoKey(e: map<Field, string>)
    ensures |e| == 0 <==> Name !in e && Age !in e && Phone !in e && Address !in e && Language !in e
  {
    if Name !in e && Age !in e && Phone !in e && Address !in e && Language !in e {
      forall f: Field ensures f !in e.Keys {
        match f
        case Name =>
        case Age =>
        case Phone =>
        case Address =>
        case Language =>
      }
      assert e.Keys == {};
    }
    if |e| == 0 {
      assert e == map[];
    }
  }

  /** Name and address fail exactly when they hold only whitespace. */
  lemma BlankRules(fd: FormData)
    ensures NameInError(fd.name) <==> IsBlank(fd.name)
    ensures AddressInError(fd.address) <==> IsBlank(fd.address)
  {
    TrimShape(fd.name);
    TrimShape(fd.address);
  }

  /** The phone rule: non-blank and at least ten characters, whitespace
      counted. */
  lemma PhoneRule(phone: string)
    ensures !PhoneInError(phone) <==> !IsBlank(phone) && |phone| >= 10
  {
    TrimShape(phone);
  }

  /** Ten characters pass, nine fail, the empty string fails, and one digit
      padded with nine spaces passes because the length is taken before
      trimming. */
  lemma PhoneBoundaries()
    ensures !PhoneInError("9876543210")
    ensures PhoneInError("987654321")
    ensures PhoneInError("")
    ensures !PhoneInError("9         ")
  {
    PhoneRule("9876543210");
    PhoneRule("9         ");
    assert !IsJsWhitespace("9876543210"[0]);
    assert !IsJsWhitespace("9         "[0]);
  }

  /** For a decimal digit string the age rule is the range check 1..150. */
  lemma AgeOfDigits(age: string)
    requires age != [] && AllDigits(age, 10)
    ensures AgeInError(age) <==> !(1 <= DigitsValue(age, 10) <= 150)
  {
    DecimalDigitsToNumber(age);
  }

  /** A string that converts to NaN passes the age rule. */
  lemma NaNAgePasses(age: string)
    requires StringToNumber(age) == NaN
    ensures !AgeInError(age)
  {
  }

  /** "1" and "150" pass; "0", "151" and "" fail. */
  lemma AgeBoundaries()
    ensures !AgeInError("1") && !AgeInError("150")
    ensures AgeInError("0") && AgeInError("151") && AgeInError("")
  {
    SmallDecimals();
    AgeOfDigits("1");
    AgeOfDigits("150");
    AgeOfDigits("0");
    AgeOfDigits("151");
  }

  lemma SmallDecimals()
    ensures AllDigits("0", 10) && DigitsValue("0", 10) == 0
    ensures AllDigits("1", 10) && DigitsValue("1", 10) == 1
    ensures AllDigits("30", 10) && DigitsValue("30", 10) == 30
    ensures AllDigits("150", 10) && DigitsValue("150", 10) == 150
    ensures AllDigits("151", 10) && DigitsValue("151", 10) == 151
  {
    assert "0"[..0] == "" && "1"[..0] == "";
    assert "30"[..1] == "3" && "3"[..0] == "";
    assert "150"[..2] == "15" && "151"[..2] == "15" && "15"[..1] == "1";
  }

  /** A non-numeric age converts to NaN and passes; a whitespace-only age
      converts to 0 and fails. */
  lemma AgeCoercionQuirks()
    ensures StringToNumber("abc") == NaN && !AgeInError("abc")
    ensures AgeInError("  ")
  {
    TrimOfTrimmed("abc");
    var e := IndexOfAny("abc", {'e', 'E'});
    assert e == 3;
    assert "abc"[..3] == "abc";
    var p := IndexOfAny("abc", {'.'});
    assert p == 3;
    assert !AllDigits("abc", 10) by { assert !IsDigitIn("abc"[0], 10); }
    BlankIsZero("  ");
  }

  // ---------------------------------------------------------------------
  // Editing a field and clearing its error

  /** The error update of handleInputChange: when errors[f] is truthy it
      becomes '', otherwise the map is left as it is. */
  function ClearError(errors: map<Field, string>, f: Field): (r: map<Field, string>)
    ensures r.Keys == errors.Keys
    ensures f in r ==> (r[f] == "" && (errors[f] == "" ==> r == errors))
    ensures forall g :: g in r && g != f ==> r[g] == errors[g]
  {
    if f in errors && errors[f] != "" then errors[f := ""] else errors
  }

  /** The error map holds no key for `language`, and each value is either
      the field's message or the '' an edit leaves behind. */
  predicate ErrorsWellFormed(errors: map<Field, string>) {
    Language !in errors && forall f :: f in errors ==> errors[f] == "" || errors[f] == ErrorMessage(f)
  }

  // ---------------------------------------------------------------------
  // Voice transcripts

  /** The new value of the target field in onresult: the transcript joined
      to a non-empty current value with one space, then trimmed. */
  function AppendTranscript(current: string, transcript: string): (r: string)
    ensures IsTrimmed(r)
  {
    var joined := if current != "" then current + " " + transcript else transcript;
    TrimShape(joined);
    Trim(joined)
  }

  /** The appended value is empty exactly when both the value and the
      transcript are blank. */
  lemma AppendTranscriptEmpty(current: string, transcript: string)
    ensures AppendTranscript(current, transcript) == [] <==> IsBlank(current) && IsBlank(transcript)
  {
    var joined := if current != "" then current + " " + transcript else transcript;
    TrimShape(joined);
    if current != "" {
      BlankJoin(current, transcript);
    }
  }

  lemma BlankJoin(a: string, b: string)
    ensures IsBlank(a + " " + b) <==> IsBlank(a) && IsBlank(b)
  {
    var j := a + " " + b;
    if IsBlank(j) {
      forall i | 0 <= i < |a| ensures IsJsWhitespace(a[i]) { assert j[i] == a[i]; }
      forall i | 0 <= i < |b| ensures IsJsWhitespace(b[i]) { assert j[|a| + 1 + i] == b[i]; }
    }
    if IsBlank(a) && IsBlank(b) {
      forall i | 0 <= i < |j| ensures IsJsWhitespace(j[i]) {
        if i < |a| { assert j[i] == a[i]; }
        else if i > |a| { assert j[i] == b[i - |a| - 1]; }
      }
    }
  }

  /** What the append produces in each case: the trimmed transcript for an
      empty value; everything between the first non-whitespace character of
      the value and the last one of the transcript when both have text; and
      whichever side has text when the other is blank. */
  lemma AppendTranscriptCases(current: string, transcript: string)
    ensures current == "" ==> AppendTranscript(current, transcript) == Trim(transcript)
    ensures current != "" && !IsBlank(current) && !IsBlank(transcript) ==>
      AppendTranscript(current, transcript) == TrimStart(current) + " " + TrimEnd(transcript)
    ensures current != "" && IsBlank(transcript) ==> AppendTranscript(current, transcript) == Trim(current)
    ensures current != "" && IsBlank(current) ==> AppendTranscript(current, transcript) == Trim(transcript)
  {
    if current != "" {
      var joined := current + " " + transcript;
      if !IsBlank(current) && !IsBlank(transcript) {
        TrimJoin(current, " ", transcript);
      }
      if IsBlank(transcript) {
        assert IsBlank(" " + transcript) by {
          BlankJoin("", transcript);
          assert "" + " " + transcript == " " + transcript;
        }
        assert joined == current + (" " + transcript);
        TrimBlankSuffix(current, " " + transcript);
      }
      if IsBlank(current) {
        assert IsBlank(current + " ") by {
          BlankJoin(current, "");
          assert current + " " + "" == current + " ";
        }
        TrimBlankPrefix(current + " ", transcript);
      }
    }
  }

  /** Appending a trimmed transcript to a trimmed value is a plain join
      with one space. */
  lemma TranscriptJoinsWithOneSpace(current: string, transcript: string)
    requires current != "" && IsTrimmed(current)
    requires transcript != "" && IsTrimmed(transcript)
    ensures AppendTranscript(current, transcript) == current + " " + transcript
  {
    assert !IsBlank(current) by { assert !IsJsWhitespace(current[0]); }
    assert !IsBlank(transcript) by { assert !IsJsWhitespace(transcript[0]); }
    AppendTranscriptCases(current, transcript);
  }

  /** The formData updater of onresult: with no active field the record is
      returned as it is, otherwise only the active field changes. */
  function ApplyTranscript(fd: FormData, active: Option<Field>, transcript: string): (r: FormData)
    ensures active == None ==> r == fd
    ensures active.Some? ==> r.Get(active.value) == AppendTranscript(fd.Get(active.value), transcript)
    ensures active.Some? ==> forall g :: g != active.value ==> r.Get(g) == fd.Get(g)
  {
    match active
    case None => fd
    case Some(f) => fd.With(f, AppendTranscript(fd.Get(f), transcript))
  }

  // ---------------------------------------------------------------------
  // Alerts

  const UnsupportedAlert: string :=
    "Voice recognition is not supported " + "in your browser. " + "Please use Chrome, Edge, or Safari."
  // Each text is a concatenation of short literals, which lets
  // AlertsIdentifyTheErrorKind compare the texts character by character.
  const MicDeniedAlert: string :=
    "Microphone access denied. " + "Please allow microphone access " + "in your browser settings."
  const NoSpeechAlert: string := "No speech detected. " + "Please try again and speak clearly."
  const NoMicrophoneAlert: string := "No microphone found. " + "Please connect a microphone."
  const GenericAlertPrefix: string := "Voice recognition error: "

  /** The alert onerror raises for a recognition error kind: none for
      'aborted', a fixed text for three kinds, the generic text otherwise. */
  function RecognitionErrorAlert(code: string): (r: Option<string>)
    ensures r == None <==> code == "aborted"
    ensures code == "not-allowed" ==> r == Some(MicDeniedAlert)
    ensures code == "no-speech" ==> r == Some(NoSpeechAlert)
    ensures code == "audio-capture" ==> r == Some(NoMicrophoneAlert)
    ensures code !in {"not-allowed", "no-speech", "audio-capture", "aborted"} ==>
      r == Some(GenericAlertPrefix + code)
  {
    if code == "not-allowed" then Some(MicDeniedAlert)
    else if code == "no-speech" then Some(NoSpeechAlert)
    else if code == "audio-capture" then Some(NoMicrophoneAlert)
    else if code != "aborted" then Some(GenericAlertPrefix + code)
    else None
  }

  /** Different error kinds never raise the same alert, so the alert tells
      the kind apart. */
  lemma AlertsIdentifyTheErrorKind(c1: string, c2: string)
    requires RecognitionErrorAlert(c1).Some? && RecognitionErrorAlert(c2).Some?
    requires c1 != c2
    ensures RecognitionErrorAlert(c1) != RecognitionErrorAlert(c2)
  {
    var fixed := {"not-allowed", "no-speech", "audio-capture"};
    if c1 !in fixed && c2 !in fixed {
      var n := |GenericAlertPrefix|;
      assert (GenericAlertPrefix + c1)[n..] == c1;
      assert (GenericAlertPrefix + c2)[n..] == c2;
    } else {
      assert MicDeniedAlert[0] == 'M' && NoSpeechAlert[0] == 'N' && NoMicrophoneAlert[0] == 'N';
      assert NoSpeechAlert[3] == 's' && NoMicrophoneAlert[3] == 'm';
      assert (GenericAlertPrefix + c1)[0] == 'V' && (GenericAlertPrefix + c2)[0] == 'V';
    }
  }

  // ---------------------------------------------------------------------
  // The emitted record

  datatype PatientRecord = PatientRecord(
    name: string, age: string, phone: string, address: string, language: string,
    patientId: string, registrationDate: string)
  {
    /** The five form keys the record was spread from. */
    function FormPart(): (fd: FormData) {
      FormData(name, age, phone, address, language)
    }
  }

  /** `{ ...formData, patientId, registrationDate }` */
  function MakeRecord(fd: FormData, patientId: string, registrationDate: string): (r: PatientRecord)
    ensures r.FormPart() == fd
    ensures r.patientId == patientId && r.registrationDate == registrationDate
  {
    PatientRecord(fd.name, fd.age, fd.phone, fd.address, fd.language, patientId, registrationDate)
  }

  // ---------------------------------------------------------------------
  // The controller as a transition function

  /** What recognition.start() does when handleVoiceInput calls it. */
  datatype StartResult = Started | ThrowsInvalidState | ThrowsOther

  /** The state cells of the component and of its recognizer:
      `hasRecognizer` is `browserSupport && recognitionRef.current`, and
      `recognizerLang` is `recognition.lang`. */
  datatype FormState = FormState(
    formData: FormData,
    errors: map<Field, string>,
    activeField: Option<Field>,
    isListening: bool,
    recognizerLang: string,
    hasRecognizer: bool)

  function InitialState(hasRecognizer: bool): (s: FormState)
    ensures s.formData.name == s.formData.age == s.formData.phone == s.formData.address == ""
    ensures s.formData.language == DefaultLanguage
    ensures s.activeField == None && !s.isListening && s.errors == map[]
    ensures s.hasRecognizer == hasRecognizer
  {
    FormState(InitialFormData, map[], None, false, "", hasRecognizer)
  }

  /** Everything that can happen to a mounted form: user input, the
      recognizer's callbacks, the retry timer, and a submit with the clock
      and random readings it uses. */
  datatype Event =
    | InputChanged(field: Field, value: string)
    | MicPressed(target: Field, start: StartResult)
    | RetryTimerFired(target: Field, startThrows: bool)
    | RecognitionStarted
    | ResultReceived(transcript: string)
    | RecognitionEnded
    | RecognitionErrored(code: string)
    | Submitted(nowMillis: int, random: real, registrationDate: string)

  /** What a step shows to the outside: an alert, or the record handed to
      onSubmit. */
  datatype Effect = Quiet | Alert(message: string) | Emit(record: PatientRecord)

  datatype Outcome = Outcome(state: FormState, effect: Effect)

  /** handleInputChange */
  function InputChange(s: FormState, f: Field, v: string): (o: Outcome)
    ensures o.state.formData.Get(f) == v
    ensures forall g :: g != f ==> o.state.formData.Get(g) == s.formData.Get(g)
    ensures o.state.errors == ClearError(s.errors, f)
    ensures o.state.(formData := s.formData, errors := s.errors) == s && o.effect == Quiet
  {
    Outcome(s.(formData := s.formData.With(f, v), errors := ClearError(s.errors, f)), Quiet)
  }

  /** handleVoiceInput: without a recognizer an alert and nothing else;
      while listening a stop, whichever field's button was pressed;
      otherwise the field becomes the target and the form's language is
      handed to the recognizer before start() is tried. */
  function MicPress(s: FormState, f: Field, start: StartResult): (o: Outcome)
    ensures !s.hasRecognizer ==> o == Outcome(s, Alert(UnsupportedAlert))
    ensures s.hasRecognizer && s.isListening ==>
      o.state == s.(isListening := false, activeField := None) && o.effect == Quiet
    ensures s.hasRecognizer && !s.isListening ==>
      o.state.recognizerLang == s.formData.language
      && o.state.activeField == (if start == ThrowsOther then None else Some(f))
      && !o.state.isListening && o.effect == Quiet
    ensures o.state.formData == s.formData && o.state.errors == s.errors
  {
    if !s.hasRecognizer then
      Outcome(s, Alert(UnsupportedAlert))
    else if s.isListening then
      Outcome(s.(isListening := false, activeField := None), Quiet)
    else
      var armed := s.(activeField := Some(f), recognizerLang := s.formData.language);
      match start
      case Started => Outcome(armed, Quiet)
      case ThrowsInvalidState => Outcome(armed, Quiet)
      case ThrowsOther => Outcome(armed.(isListening := false, activeField := None), Quiet)
  }

  /** The 100 ms retry after an InvalidStateError: the field is armed
      again and start() is retried; if it throws, capture is cleared. */
  function RetryFires(s: FormState, f: Field, startThrows: bool): (o: Outcome)
    ensures o.state.activeField == (if startThrows then None else Some(f))
    ensures startThrows ==> !o.state.isListening
    ensures !startThrows ==> o.state.isListening == s.isListening
    ensures o.state.recognizerLang == s.recognizerLang && o.state.hasRecognizer == s.hasRecognizer
    ensures o.state.formData == s.formData && o.state.errors == s.errors && o.effect == Quiet
  {
    var armed := s.(activeField := Some(f));
    if startThrows then Outcome(armed.(isListening := false, activeField := None), Quiet)
    else Outcome(armed, Quiet)
  }

  /** handleSubmit: validateForm replaces the errors, and the record is
      emitted only when they are empty; formData is never touched. */
  function Submit(s: FormState, nowMillis: int, random: real, registrationDate: string): (o: Outcome)
    ensures o.state == s.(errors := ValidationErrors(s.formData))
    ensures o.effect.Emit? <==> IsValid(s.formData)
    ensures o.effect.Emit? ==> o.effect.record == MakeRecord(s.formData, GeneratePatientId(nowMillis, random), registrationDate)
    ensures !o.effect.Emit? ==> o.effect == Quiet
  {
    var s' := s.(errors := ValidationErrors(s.formData));
    if IsValid(s.formData) then
      Outcome(s', Emit(MakeRecord(s.formData, GeneratePatientId(nowMillis, random), registrationDate)))
    else
      Outcome(s', Quiet)
  }

  function Step(s: FormState, e: Event): (o: Outcome)
    ensures o.state.hasRecognizer == s.hasRecognizer
  {
    match e
    case InputChanged(f, v) => InputChange(s, f, v)
    case MicPressed(f, start) => MicPress(s, f, start)
    case RetryTimerFired(f, startThrows) => RetryFires(s, f, startThrows)
    case RecognitionStarted => Outcome(s.(isListening := true), Quiet)
    case ResultReceived(t) => Outcome(s.(formData := ApplyTranscript(s.formData, s.activeField, t)), Quiet)
    case RecognitionEnded => Outcome(s.(isListening := false), Quiet)
    case RecognitionErrored(code) =>
      var alert := RecognitionErrorAlert(code);
      Outcome(s.(isListening := false), if alert.Some? then Alert(alert.value) else Quiet)
    case Submitted(now, random, date) => Submit(s, now, random, date)
  }

  datatype Trace = Trace(state: FormState, effects: seq<Effect>)

  /** The state after a sequence of events, with the effect of each. */
  function Run(s: FormState, es: seq<Event>): (t: Trace)
    ensures |t.effects| == |es|
  {
    if es == [] then Trace(s, [])
    else
      var t := Run(s, es[..|es| - 1]);
      var o := Step(t.state, es[|es| - 1]);
      Trace(o.state, t.effects + [o.effect])
  }

  /** Whether an event can change formData. */
  predicate WritesFormData(e: Event) {
    e.InputChanged? || e.ResultReceived?
  }

  // ---------------------------------------------------------------------
  // Properties of the controller

  /** Only edits and transcripts change formData. */
  lemma {:induction false} OnlyEditsAndTranscriptsWriteFields(s: FormState, es: seq<Event>)
    requires forall i :: 0 <= i < |es| ==> !WritesFormData(es[i])
    ensures Run(s, es).state.formData == s.formData
  {
    if es != [] {
      OnlyEditsAndTranscriptsWriteFields(s, es[..|es| - 1]);
    }
  }

  /** The last edit of a field decides its value, as long as no transcript
      arrives after it. */
  lemma {:induction false} LastEditWins(s: FormState, es: seq<Event>, k: nat, f: Field, v: string)
    requires k < |es| && es[k] == InputChanged(f, v)
    requires forall i :: k < i < |es| ==> !es[i].ResultReceived? && !(es[i].InputChanged? && es[i].field == f)
    ensures Run(s, es).state.formData.Get(f) == v
  {
    if k < |es| - 1 {
      var p := es[..|es| - 1];
      assert p[k] == es[k];
      LastEditWins(s, p, k, f, v);
    } else {
      assert es[..|es| - 1][..k] == es[..k];
    }
  }

  /** Every record handed to onSubmit passes validation and carries the
      generator's identifier. */
  lemma {:induction false} EmittedRecordsAreValid(s: FormState, es: seq<Event>)
    ensures forall i :: 0 <= i < |es| && Run(s, es).effects[i].Emit? ==>
      IsValid(Run(s, es).effects[i].record.FormPart()) && Run(s, es).effects[i].record.patientId == Prefix
  {
    if es != [] {
      var p := es[..|es| - 1];
      EmittedRecordsAreValid(s, p);
      var t := Run(s, p);
      assert Run(s, es).effects == t.effects + [Step(t.state, es[|es| - 1]).effect];
    }
  }

  /** Every step keeps the error map well formed. */
  lemma StepKeepsErrorsWellFormed(s: FormState, e: Event)
    requires ErrorsWellFormed(s.errors)
    ensures ErrorsWellFormed(Step(s, e).state.errors)
  {
    if e.InputChanged? {
      var r := ClearError(s.errors, e.field);
      forall g | g in r ensures r[g] == "" || r[g] == ErrorMessage(g) {
        if g != e.field { assert r[g] == s.errors[g]; }
      }
    }
  }

  /** Starting from the mounted form, the error map stays well formed. */
  lemma {:induction false} ErrorsStayWellFormed(hasRecognizer: bool, es: seq<Event>)
    ensures ErrorsWellFormed(Run(InitialState(hasRecognizer), es).state.errors)
  {
    if es != [] {
      ErrorsStayWellFormed(hasRecognizer, es[..|es| - 1]);
      StepKeepsErrorsWellFormed(Run(InitialState(hasRecognizer), es[..|es| - 1]).state, es[|es| - 1]);
    }
  }

  /** The events a user can cause, as opposed to the recognizer's callbacks
      and the retry timer. */
  predicate IsUserEvent(e: Event) {
    e.InputChanged? || e.MicPressed? || e.Submitted?
  }

  /** Without a recognizer, no user action starts capture, and every mic
      press only raises the unsupported alert. */
  lemma {:induction false} NoRecognizerNoCapture(s: FormState, es: seq<Event>)
    requires !s.hasRecognizer
    requires forall i :: 0 <= i < |es| ==> IsUserEvent(es[i])
    ensures Run(s, es).state.activeField == s.activeField
    ensures Run(s, es).state.isListening == s.isListening
    ensures Run(s, es).state.recognizerLang == s.recognizerLang
    ensures forall i :: 0 <= i < |es| && es[i].MicPressed? ==> Run(s, es).effects[i] == Alert(UnsupportedAlert)
  {
    if es != [] {
      var p := es[..|es| - 1];
      NoRecognizerNoCapture(s, p);
      RecognizerNeverChanges(s, p);
      var t := Run(s, p);
      assert Run(s, es).effects == t.effects + [Step(t.state, es[|es| - 1]).effect];
    }
  }

  lemma {:induction false} RecognizerNeverChanges(s: FormState, es: seq<Event>)
    ensures Run(s, es).state.hasRecognizer == s.hasRecognizer
  {
    if es != [] {
      RecognizerNeverChanges(s, es[..|es| - 1]);
    }
  }

  /** validateForm reads only formData: submitting twice without an edit in
      between leaves the same state and makes the same decision. */
  lemma SubmitIsRepeatable(s: FormState, a: Event, b: Event)
    requires a.Submitted? && b.Submitted?
    ensures Step(Step(s, a).state, b).state == Step(s, a).state
    ensures Step(Step(s, a).state, b).effect.Emit? == Step(s, a).effect.Emit?
  {
  }

  /** A transcript arriving with no active field changes nothing. */
  lemma StaleTranscriptDropped(s: FormState, transcript: string)
    requires s.activeField == None
    ensures Step(s, ResultReceived(transcript)).state == s
  {
  }

  /** The natural end of a session, and an error, stop listening but leave
      the target field armed. */
  lemma EndKeepsTarget(s: FormState, code: string)
    ensures Step(s, RecognitionEnded).state == s.(isListening := false)
    ensures Step(s, RecognitionErrored(code)).state == s.(isListening := false)
  {
  }

  /** Press, session start, any number of transcripts in the form of one,
      then any field's press: capture is off and no field is armed. There
      is no retargeting to the second field. */
  lemma SecondPressWhileListeningStops(s: FormState, f: Field, g: Field, transcript: string, start: StartResult)
    requires s.hasRecognizer && !s.isListening
    ensures var s1 := Step(s, MicPressed(f, Started)).state;
      var s2 := Step(s1, RecognitionStarted).state;
      var s3 := Step(s2, ResultReceived(transcript)).state;
      var s4 := Step(s3, MicPressed(g, start)).state;
      s4.activeField == None && !s4.isListening
      && s4.formData == s.formData.With(f, AppendTranscript(s.formData.Get(f), transcript))
  {
  }

  /** Once the session has ended by itself, the next press starts a new
      session for the pressed field instead of toggling off. */
  lemma PressAfterNaturalEndRestarts(s: FormState, f: Field, g: Field, transcript: string)
    requires s.hasRecognizer && !s.isListening
    ensures var s1 := Step(s, MicPressed(f, Started)).state;
      var s2 := Step(s1, RecognitionStarted).state;
      var s3 := Step(s2, ResultReceived(transcript)).state;
      var s4 := Step(s3, RecognitionEnded).state;
      var s5 := Step(s4, MicPressed(g, Started)).state;
      s4.activeField == Some(f) && s5.activeField == Some(g) && s5.recognizerLang == s3.formData.language
  {
  }

  /** The same scenario when the pressed field is already the armed one,
      so that no press changes `activeField` until the second one: capture
      stops and the transcript reaches that field. */
  lemma SecondPressOnArmedFieldStops(s: FormState, f: Field, transcript: string, start: StartResult)
    requires s.hasRecognizer && !s.isListening && s.activeField == Some(f)
    ensures var s1 := Step(s, MicPressed(f, Started)).state;
      var s2 := Step(s1, RecognitionStarted).state;
      var s3 := Step(s2, ResultReceived(transcript)).state;
      var s4 := Step(s3, MicPressed(f, start)).state;
      s1.activeField == s.activeField && s3.activeField == s.activeField
      && s4.activeField == None && !s4.isListening
      && s4.formData == s.formData.With(f, AppendTranscript(s.formData.Get(f), transcript))
  {
    SecondPressWhileListeningStops(s, f, f, transcript, start);
  }

  /** A natural end followed by a press on the same field: the armed field
      never changes, and the new session uses the current language. */
  lemma PressAfterNaturalEndRestartsSameField(s: FormState, f: Field, transcript: string)
    requires s.hasRecognizer && !s.isListening && s.activeField == Some(f)
    ensures var s1 := Step(s, MicPressed(f, Started)).state;
      var s2 := Step(s1, RecognitionStarted).state;
      var s3 := Step(s2, ResultReceived(transcript)).state;
      var s4 := Step(s3, RecognitionEnded).state;
      var s5 := Step(s4, MicPressed(f, Started)).state;
      s1.activeField == Some(f) && s4.activeField == Some(f) && s5.activeField == Some(f)
      && !s5.isListening && s5.recognizerLang == s3.formData.language
      && s5.formData == s.formData.With(f, AppendTranscript(s.formData.Get(f), transcript))
  {
    PressAfterNaturalEndRestarts(s, f, f, transcript);
  }

  /** The valid example: name, age, phone and address as typed reach the
      record, with the generator's identifier. */
  lemma ValidSubmission(nowMillis: int, random: real, date: string)
    ensures var fd := FormData("Asha", "30", "9876543210", "12 MG Road", "en-IN");
      var o := Step(InitialState(true).(formData := fd), Submitted(nowMillis, random, date));
      o.effect == Emit(PatientRecord("Asha", "30", "9876543210", "12 MG Road", "en-IN", "P00122", date))
      && o.state.errors == map[]
  {
    var fd := FormData("Asha", "30", "9876543210", "12 MG Road", "en-IN");
    ExampleIsValid(fd);
    var e := ValidationErrors(fd);
    assert e == map[];
  }

  lemma ExampleIsValid(fd: FormData)
    requires fd == FormData("Asha", "30", "9876543210", "12 MG Road", "en-IN")
    ensures IsValid(fd)
  {
    ValidIffEveryRulePasses(fd);
    ExampleTextFieldsPass();
    AgeThirtyPasses();
  }

  lemma ExampleTextFieldsPass()
    ensures !NameInError("Asha") && !PhoneInError("9876543210") && !AddressInError("12 MG Road")
  {
    TrimOfTrimmed("Asha");
    TrimOfTrimmed("9876543210");
    TrimOfTrimmed("12 MG Road");
  }

  lemma AgeThirtyPasses()
    ensures !AgeInError("30")
  {
    SmallDecimals();
    AgeOfDigits("30");
  }

  /** The invalid example: an empty name blocks the submit, the only error
      is the name's, and formData is unchanged. */
  lemma EmptyNameSubmission(nowMillis: int, random: real, date: string)
    ensures var fd := FormData("", "30", "9876543210", "x", "en-IN");
      var s := InitialState(true).(formData := fd);
      var o := Step(s, Submitted(nowMillis, random, date));
      o.effect == Quiet && o.state.errors == map[Name := NameRequired] && o.state.formData == fd
  {
    var fd := FormData("", "30", "9876543210", "x", "en-IN");
    OnlyNameMissing(fd);
  }

  lemma OnlyNameMissing(fd: FormData)
    requires fd == FormData("", "30", "9876543210", "x", "en-IN")
    ensures ValidationErrors(fd) == map[Name := NameRequired]
  {
    AgeThirtyPasses();
    TrimOfTrimmed("9876543210");
    TrimOfTrimmed("x");
    ErrorsMatchRules(map[Name := NameRequired], fd);
  }
}
