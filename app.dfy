/**
  The App component of src/App.jsx: it holds the registered patient's
  identifier and record, shows the form while the identifier is falsy and
  the identifier display otherwise. Switching to the display unmounts the
  form, and switching back mounts a fresh one, so the form's state does
  not survive a registration.
 */
module AppShell {
  import opened Wrappers
  import opened PatientIdGenerator
  import opened PatientFormRules
  import opened PatientFormController

  /** JavaScript truthiness of the `patientId` cell: null and '' are falsy. */
  predicate Truthy(id: Option<string>)
    ensures Truthy(id) <==> id != None && id != Some("")
  {
    id.Some? && id.value != ""
  }

  /** What App renders. */
  datatype Screen = FormScreen | DisplayScreen(patientId: string, patientData: Option<PatientRecord>)

  /** `!patientId ? <PatientForm/> : <PatientIdDisplay/>` */
  function ScreenFor(patientId: Option<string>, patientData: Option<PatientRecord>): (v: Screen)
    ensures v.FormScreen? <==> !Truthy(patientId)
    ensures v.DisplayScreen? ==> Some(v.patientId) == patientId && v.patientData == patientData
  {
    if !Truthy(patientId) then FormScreen else DisplayScreen(patientId.value, patientData)
  }

  /** A record carrying the generator's identifier, whatever the clock and
      the random reading, always leads to the display. */
  lemma GeneratedIdShowsDisplay(record: PatientRecord, nowMillis: int, random: real)
    requires record.patientId == GeneratePatientId(nowMillis, random)
    ensures ScreenFor(Some(record.patientId), Some(record)) == DisplayScreen(Prefix, Some(record))
  {
  }

  /** Illustrates the falsiness of '': a record with that identifier would
      leave the form on screen. The generator never produces '' (see
      IdIsNonEmpty), so App never reaches this case. */
  lemma EmptyIdKeepsForm(record: PatientRecord)
    requires record.patientId == ""
    ensures ScreenFor(Some(record.patientId), Some(record)) == FormScreen
  {
  }

  class App {
    var patientId: Option<string>
    var patientData: Option<PatientRecord>
    /** The mounted PatientForm, or null while the display is shown. */
    var form: PatientForm?
    /** Whether the browser offers speech recognition to the forms App mounts. */
    const hasRecognizer: bool

    /** The form is mounted exactly while the identifier is falsy. */
    predicate Valid()
      reads this
    {
      (form != null) <==> !Truthy(patientId)
    }

    function CurrentScreen(): Screen
      reads this
    {
      ScreenFor(patientId, patientData)
    }

    /** Both cells start as null, so the form is shown, freshly mounted. */
    constructor(hasRecognizer: bool)
      ensures Valid() && patientId == None && patientData == None
      ensures CurrentScreen() == FormScreen
      ensures form != null && fresh(form) && form.State() == InitialState(hasRecognizer)
      ensures this.hasRecognizer == hasRecognizer
    {
      patientId := None;
      patientData := None;
      this.hasRecognizer := hasRecognizer;
      form := new PatientForm(hasRecognizer);
    }

    /** Re-render after the cells changed: a form that stays on screen
        keeps its state, one that leaves is dropped, one that appears is
        mounted anew. */
    method Render()
      modifies this
      ensures Valid()
      ensures patientId == old(patientId) && patientData == old(patientData)
      ensures old(form) != null && !Truthy(patientId) ==> form == old(form)
      ensures old(form) == null && !Truthy(patientId) ==>
        form != null && fresh(form) && form.State() == InitialState(hasRecognizer)
    {
      if Truthy(patientId) {
        form := null;
      } else if form == null {
        form := new PatientForm(hasRecognizer);
      }
    }

    /** handleFormSubmit: stores the record and its identifier. */
    method HandleFormSubmit(data: PatientRecord)
      modifies this
      ensures patientData == Some(data) && patientId == Some(data.patientId)
      ensures Valid()
      ensures CurrentScreen() == ScreenFor(Some(data.patientId), Some(data))
      ensures old(form) != null && data.patientId == "" ==> form == old(form)
      ensures old(form) == null && data.patientId == "" ==>
        form != null && fresh(form) && form.State() == InitialState(hasRecognizer)
    {
      patientData := Some(data);
      patientId := Some(data.patientId);
      Render();
    }

    /** handleReset: both cells back to null, so a fresh form is shown. */
    method HandleReset()
      modifies this
      ensures patientId == None && patientData == None
      ensures Valid() && CurrentScreen() == FormScreen
      ensures old(form) != null ==> form == old(form)
      ensures old(form) == null ==> form != null && fresh(form) && form.State() == InitialState(hasRecognizer)
    {
      patientId := None;
      patientData := None;
      Render();
    }

    /** The form's submit button with onSubmit wired to handleFormSubmit: a
        valid form switches App to the display of the new identifier, an
        invalid one stays on screen with its errors. */
    method SubmitForm(nowMillis: int, random: real, registrationDate: string)
      returns (record: Option<PatientRecord>)
      requires Valid() && form != null
      modifies this, form
      ensures record.Some? <==> IsValid(old(form.formData))
      ensures record.Some? ==>
        record.value.FormPart() == old(form.formData) && record.value.patientId == Prefix
        && record.value.registrationDate == registrationDate
        && patientData == record && form == null
        && CurrentScreen() == DisplayScreen(Prefix, record)
      ensures record.None? ==>
        form == old(form) && patientId == old(patientId) && patientData == old(patientData)
        && form.State() == old(form.State()).(errors := ValidationErrors(old(form.formData)))
      ensures Valid()
    {
      var f := form;
      record := f.HandleSubmit(nowMillis, random, registrationDate);
      if record.Some? {
        HandleFormSubmit(record.value);
      }
    }
  }
}
