/**
  The PatientForm component of src/components/PatientForm.jsx as an object
  whose handlers update its state cells in place. Each handler is one
  event of PatientFormRules.Step, and its contract says so, so every
  property proved about Step and Run holds of any sequence of calls.

  React batches the setters of one handler and applies them together
  before the next event; a method here applies them in the same order, so
  the state seen by the next call is the one React would render.
 */
module PatientFormController {
  import opened Wrappers
  import opened JsText
  import opened PatientFormRules
  import opened PatientIdGenerator

  class PatientForm {
    /** useState cells. */
    var formData: FormData
    var errors: map<Field, string>
    var activeField: Option<Field>
    var isListening: bool
    /** `recognition.lang` of the recognizer held in recognitionRef. */
    var recognizerLang: string
    /** `browserSupport && recognitionRef.current`: whether the browser
        provided a SpeechRecognition constructor when the form mounted. */
    const hasRecognizer: bool

    function State(): FormState
      reads this
    {
      FormState(formData, errors, activeField, isListening, recognizerLang, hasRecognizer)
    }

    /** Mounting: formData holds its defaults, no errors, no capture. */
    constructor(hasRecognizer: bool)
      ensures State() == InitialState(hasRecognizer)
    {
      formData := InitialFormData;
      errors := map[];
      activeField := None;
      isListening := false;
      recognizerLang := "";
      this.hasRecognizer := hasRecognizer;
    }

    /** handleInputChange for the input whose `name` attribute is `f`. */
    method HandleInputChange(f: Field, v: string)
      modifies this
      ensures State() == Step(old(State()), InputChanged(f, v)).state
      ensures formData == old(formData).With(f, v)
      ensures errors == ClearError(old(errors), f)
      ensures activeField == old(activeField) && isListening == old(isListening)
    {
      formData := formData.With(f, v);
      if f in errors && errors[f] != "" {
        errors := errors[f := ""];
      }
    }

    /** handleVoiceInput for the mic button of field `f`; `start` is what
        recognition.start() does. Returns the alert raised, if any. */
    method HandleVoiceInput(f: Field, start: StartResult) returns (alert: Option<string>)
      modifies this
      ensures State() == Step(old(State()), MicPressed(f, start)).state
      ensures Step(old(State()), MicPressed(f, start)).effect == if alert.Some? then Alert(alert.value) else Quiet
      ensures alert.Some? <==> !hasRecognizer
      ensures old(isListening) && hasRecognizer ==> activeField == None && !isListening
    {
      if !hasRecognizer {
        return Some(UnsupportedAlert);
      }
      alert := None;
      if isListening {
        isListening := false;
        activeField := None;
        return;
      }
      activeField := Some(f);
      recognizerLang := formData.language;
      if start == ThrowsOther {
        isListening := false;
        activeField := None;
      }
    }

    /** The timer handler scheduled after an InvalidStateError: arms `f`
        again and retries start(); `startThrows` is whether that throws. */
    method RetryTimerFires(f: Field, startThrows: bool)
      modifies this
      ensures State() == Step(old(State()), RetryTimerFired(f, startThrows)).state
      ensures activeField == (if startThrows then None else Some(f))
    {
      activeField := Some(f);
      if startThrows {
        isListening := false;
        activeField := None;
      }
    }

    /** recognition.onstart */
    method OnStart()
      modifies this
      ensures State() == Step(old(State()), RecognitionStarted).state
      ensures isListening && activeField == old(activeField)
    {
      isListening := true;
    }

    /** recognition.onresult with the first alternative's transcript. */
    method OnResult(transcript: string)
      modifies this
      ensures State() == Step(old(State()), ResultReceived(transcript)).state
      ensures formData == ApplyTranscript(old(formData), activeField, transcript)
      ensures activeField.Some? ==>
        formData.Get(activeField.value) == AppendTranscript(old(formData).Get(activeField.value), transcript)
    {
      if activeField.Some? {
        var field := activeField.value;
        var currentValue := formData.Get(field);
        var newValue := if currentValue != "" then currentValue + " " + transcript else transcript;
        formData := formData.With(field, Trim(newValue));
      }
    }

    /** recognition.onend: listening stops, the armed field stays. */
    method OnEnd()
      modifies this
      ensures State() == Step(old(State()), RecognitionEnded).state
      ensures !isListening && activeField == old(activeField)
    {
      isListening := false;
    }

    /** recognition.onerror with `event.error == code`; returns the alert. */
    method OnError(code: string) returns (alert: Option<string>)
      modifies this
      ensures State() == Step(old(State()), RecognitionErrored(code)).state
      ensures Step(old(State()), RecognitionErrored(code)).effect == if alert.Some? then Alert(alert.value) else Quiet
      ensures alert == RecognitionErrorAlert(code)
    {
      isListening := false;
      if code == "not-allowed" {
        alert := Some(MicDeniedAlert);
      } else if code == "no-speech" {
        alert := Some(NoSpeechAlert);
      } else if code == "audio-capture" {
        alert := Some(NoMicrophoneAlert);
      } else if code != "aborted" {
        alert := Some(GenericAlertPrefix + code);
      } else {
        alert := None;
      }
    }

    /** validateForm: builds newErrors rule by rule, stores it, and reports
        whether it is empty. */
    method ValidateForm() returns (valid: bool)
      modifies this
      ensures errors == ValidationErrors(formData)
      ensures valid <==> IsValid(formData)
      ensures valid <==>
        !NameInError(formData.name) && !AgeInError(formData.age)
        && !PhoneInError(formData.phone) && !AddressInError(formData.address)
      ensures State() == old(State()).(errors := errors)
    {
      var nameBad, ageBad := NameInError(formData.name), AgeInError(formData.age);
      var phoneBad, addressBad := PhoneInError(formData.phone), AddressInError(formData.address);
      var newErrors: map<Field, string> := map[];
      if nameBad {
        newErrors := newErrors[Name := NameRequired];
      }
      if ageBad {
        newErrors := newErrors[Age := AgeRequired];
      }
      if phoneBad {
        newErrors := newErrors[Phone := PhoneRequired];
      }
      if addressBad {
        newErrors := newErrors[Address := AddressRequired];
      }
      ErrorsMatchRules(newErrors, formData);
      errors := newErrors;
      valid := |newErrors| == 0;
      ValidIffEveryRulePasses(formData);
    }

    /** handleSubmit: validates, and only a valid form produces the record
        for onSubmit, with the generator's identifier and the submit time. */
    method HandleSubmit(nowMillis: int, random: real, registrationDate: string)
      returns (record: Option<PatientRecord>)
      modifies this
      ensures State() == Step(old(State()), Submitted(nowMillis, random, registrationDate)).state
      ensures Step(old(State()), Submitted(nowMillis, random, registrationDate)).effect
        == if record.Some? then Emit(record.value) else Quiet
      ensures formData == old(formData) && errors == ValidationErrors(formData)
      ensures record.Some? <==> IsValid(formData)
      ensures record.Some? ==>
        record.value.FormPart() == formData && record.value.patientId == Prefix
        && record.value.registrationDate == registrationDate
    {
      var valid := ValidateForm();
      if valid {
        var patientId := GeneratePatientId(nowMillis, random);
        record := Some(MakeRecord(formData, patientId, registrationDate));
      } else {
        record := None;
      }
    }
  }
}
