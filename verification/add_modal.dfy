/** The "Add Lala" form (`components/AddBeneficiaryModal.tsx`): required-CNIC
    validation, the insert payload, the error shown for a failed insert, and
    the form state around one submission. */
module AddForm {
  import opened Strings
  import opened Records

  /** The form's inputs, all text; `zakaat` is the select value. */
  datatype Form = Form(name: string, cnic: string, phone: string, designation: string, zakaat: string)

  const EmptyForm := Form("", "", "", "", "")

  /** The input a change event names. */
  datatype Field = NameField | CnicField | PhoneField | DesignationField | ZakaatField

  /** The parent's callbacks, in the order the form calls them. */
  datatype Notice = ClearCnicError | Succeeded | Closed

  const CnicRequired := "CNIC is required."
  const DuplicateCnic := "Lala already exists in the database."
  const AddFailed := "Failed to add."
  const SomethingWrong := "Something went wrong."

  /** The unique-violation code of Postgres. */
  const UniqueViolation := "23505"

  /** The record inserted for `form` on tab `location`; `None` when the CNIC
      is blank and no insert is made. */
  function InsertPayload(form: Form, location: Location): (r: Option<NewBeneficiary>)
    ensures r.None? <==> AllSpace(form.cnic)
    ensures r.Some? ==>
      var p := r.value;
      p.cnic == Trim(form.cnic) && p.cnic != [] && IsTrimmed(p.cnic) &&
      p.status == Pending && p.location == location &&
      IsNormalText(p.name) && IsNormalText(p.phone) && IsNormalText(p.designation) &&
      (p.name.None? <==> AllSpace(form.name)) &&
      (p.name.Some? ==> p.name.value == Trim(form.name)) &&
      (p.phone.None? <==> AllSpace(form.phone)) &&
      (p.phone.Some? ==> p.phone.value == Trim(form.phone)) &&
      (p.designation.None? <==> AllSpace(form.designation)) &&
      (p.designation.Some? ==> p.designation.value == Trim(form.designation)) &&
      (p.zakaatEligible == None <==> form.zakaat == "") &&
      (p.zakaatEligible == Some(true) <==> form.zakaat == "true")
  {
    TrimSpec(form.cnic);
    TrimOrNullSpec(form.name);
    TrimOrNullSpec(form.phone);
    TrimOrNullSpec(form.designation);
    var cnic := Trim(form.cnic);
    if cnic == [] then None
    else Some(NewBeneficiary(
      TrimOrNull(form.name), cnic, TrimOrNull(form.phone), TrimOrNull(form.designation),
      location, ZakaatFromForm(form.zakaat), Pending))
  }

  /** The form a record would fill in: null shown as `""`. */
  function FormOf(p: NewBeneficiary): Form {
    Form(OrEmpty(p.name), p.cnic, OrEmpty(p.phone), OrEmpty(p.designation), ZakaatToForm(p.zakaatEligible))
  }

  /** Submitting a payload's own form again builds the same payload. */
  lemma PayloadRoundTrip(form: Form, location: Location)
    requires InsertPayload(form, location).Some?
    ensures InsertPayload(FormOf(InsertPayload(form, location).value), location) == InsertPayload(form, location)
  {
    var p := InsertPayload(form, location).value;
    var f := FormOf(p);
    assert Trim(f.cnic) == p.cnic by { TrimSpec(p.cnic); }
    assert TrimOrNull(f.name) == p.name by { TrimOrNullShown(p.name); }
    assert TrimOrNull(f.phone) == p.phone by { TrimOrNullShown(p.phone); }
    assert TrimOrNull(f.designation) == p.designation by { TrimOrNullShown(p.designation); }
    assert ZakaatFromForm(f.zakaat) == p.zakaatEligible by { ZakaatRoundTrip(p.zakaatEligible); }
  }

  /** The message for an insert the store rejected. */
  function InsertErrorMessage(e: StoreError): (m: string)
    ensures m != ""
    ensures e.code == UniqueViolation ==> m == DuplicateCnic
    ensures e.code != UniqueViolation ==> m == (if e.message != "" then e.message else AddFailed)
  {
    if e.code == UniqueViolation then DuplicateCnic
    else if e.message != "" then e.message
    else AddFailed
  }

  /** The input named by `field` set to `value`, the others kept. */
  function WithField(form: Form, field: Field, value: string): Form {
    match field
    case NameField => form.(name := value)
    case CnicField => form.(cnic := value)
    case PhoneField => form.(phone := value)
    case DesignationField => form.(designation := value)
    case ZakaatField => form.(zakaat := value)
  }

  /** The state of the open modal. */
  class Modal {
    var form: Form
    var submitting: bool
    var submitError: string

    constructor ()
      ensures form == EmptyForm && !submitting && submitError == ""
    {
      form := EmptyForm;
      submitting := false;
      submitError := "";
    }

    /** `handleChange`: stores the value, asks the parent to clear its
        existing-CNIC error when the CNIC changed, and clears the submit error. */
    method Change(field: Field, value: string) returns (notices: seq<Notice>)
      modifies this
      ensures form == WithField(old(form), field, value)
      ensures notices == (if field == CnicField then [ClearCnicError] else [])
      ensures submitError == "" && submitting == old(submitting)
    {
      form := WithField(form, field, value);
      notices := [];
      if field == CnicField {
        notices := [ClearCnicError];
      }
      submitError := "";
    }

    /** `handleSubmit` on tab `location`; `reply` is how the insert attempt
        ends. `sent` is the record handed to the store, `notices` the parent
        callbacks made. */
    method Submit(location: Location, reply: StoreReply) returns (sent: Option<NewBeneficiary>, notices: seq<Notice>)
      modifies this
      ensures sent == InsertPayload(old(form), location)
      ensures AllSpace(old(form).cnic) ==>
        submitError == CnicRequired && notices == [] && form == old(form) && submitting == old(submitting)
      ensures !AllSpace(old(form).cnic) ==> !submitting
      ensures !AllSpace(old(form).cnic) && reply.Rejected? ==>
        submitError == InsertErrorMessage(reply.error) && notices == [] && form == old(form)
      ensures !AllSpace(old(form).cnic) && reply.Threw? ==>
        submitError == SomethingWrong && notices == [] && form == old(form)
      ensures !AllSpace(old(form).cnic) && reply.Accepted? ==>
        submitError == "" && notices == [Succeeded, Closed] && form == EmptyForm
    {
      submitError := "";
      notices := [];
      var cnic := Trim(form.cnic);
      if cnic == [] {
        submitError := CnicRequired;
        return None, [];
      }
      submitting := true;
      sent := InsertPayload(form, location);
      match reply {
        case Rejected(e) =>
          submitError := InsertErrorMessage(e);
          submitting := false;
          return;
        case Threw =>
          submitError := SomethingWrong;
        case Accepted =>
          form := EmptyForm;
          notices := [Succeeded, Closed];
      }
      submitting := false;
    }
  }
}
