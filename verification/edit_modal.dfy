/** The "Edit Lala" form (`components/EditBeneficiaryModal.tsx`): the form
    filled in from a stored record, the update it sends, and the form state
    around one submission. */
module EditForm {
  import opened Strings
  import opened Records

  /** The editable inputs; the CNIC, location and status are not among them. */
  datatype Form = Form(name: string, phone: string, designation: string, zakaat: string)

  /** The fields an update writes: the four editable ones and nothing else. */
  datatype Patch = Patch(name: Option<string>, phone: Option<string>, designation: Option<string>, zakaatEligible: Option<bool>)

  /** One update call: the patch, applied to the row with this id. */
  datatype Update = Update(id: string, patch: Patch)

  /** The parent's callbacks, in the order the form calls them. */
  datatype Notice = Succeeded | Closed

  const UpdateFailed := "Update failed."
  const SomethingWrong := "Something went wrong."

  /** The form state the modal opens with. */
  function InitialForm(b: Beneficiary): Form {
    Form(OrEmpty(b.name), OrEmpty(b.phone), OrEmpty(b.designation), ZakaatToForm(b.zakaatEligible))
  }

  /** The update built from the form for record `b`. */
  function UpdateFor(b: Beneficiary, form: Form): (u: Update)
    ensures u.id == b.id
    ensures IsNormalText(u.patch.name) && IsNormalText(u.patch.phone) && IsNormalText(u.patch.designation)
    ensures u.patch.name.None? <==> AllSpace(form.name)
    ensures u.patch.name.Some? ==> u.patch.name.value == Trim(form.name)
    ensures u.patch.phone.None? <==> AllSpace(form.phone)
    ensures u.patch.phone.Some? ==> u.patch.phone.value == Trim(form.phone)
    ensures u.patch.designation.None? <==> AllSpace(form.designation)
    ensures u.patch.designation.Some? ==> u.patch.designation.value == Trim(form.designation)
    ensures u.patch.zakaatEligible == None <==> form.zakaat == ""
    ensures u.patch.zakaatEligible == Some(true) <==> form.zakaat == "true"
  {
    TrimOrNullSpec(form.name);
    TrimOrNullSpec(form.phone);
    TrimOrNullSpec(form.designation);
    Update(b.id, Patch(TrimOrNull(form.name), TrimOrNull(form.phone), TrimOrNull(form.designation),
      ZakaatFromForm(form.zakaat)))
  }

  /** The row after the store applies a patch: only the four edited fields
      change. */
  function ApplyPatch(b: Beneficiary, p: Patch): (r: Beneficiary)
    ensures r.id == b.id && r.cnic == b.cnic && r.location == b.location
    ensures r.status == b.status && r.createdAt == b.createdAt
  {
    b.(name := p.name, phone := p.phone, designation := p.designation, zakaatEligible := p.zakaatEligible)
  }

  /** The stored tri-state survives the round trip through the select. */
  lemma InitialZakaatRoundTrip(b: Beneficiary)
    ensures UpdateFor(b, InitialForm(b)).patch.zakaatEligible == b.zakaatEligible
  {
    ZakaatRoundTrip(b.zakaatEligible);
  }

  /** Saving the form without edits leaves the record unchanged exactly when
      its text fields are already normal (null, or non-empty and trimmed). */
  lemma UnchangedSaveKeepsRecord(b: Beneficiary)
    ensures ApplyPatch(b, UpdateFor(b, InitialForm(b)).patch) == b <==>
      IsNormalText(b.name) && IsNormalText(b.phone) && IsNormalText(b.designation)
  {
    var p := UpdateFor(b, InitialForm(b)).patch;
    assert p.name == b.name <==> IsNormalText(b.name) by { TrimOrNullShown(b.name); }
    assert p.phone == b.phone <==> IsNormalText(b.phone) by { TrimOrNullShown(b.phone); }
    assert p.designation == b.designation <==> IsNormalText(b.designation) by { TrimOrNullShown(b.designation); }
    assert p.zakaatEligible == b.zakaatEligible by { ZakaatRoundTrip(b.zakaatEligible); }
  }

  /** The message for an update the store rejected. */
  function UpdateErrorMessage(e: StoreError): (m: string)
    ensures m != ""
    ensures e.message != "" ==> m == e.message
    ensures e.message == "" ==> m == UpdateFailed
  {
    if e.message != "" then e.message else UpdateFailed
  }

  /** The state of the open modal for record `b`. */
  class Modal {
    const beneficiary: Beneficiary
    var form: Form
    var submitting: bool
    var error: string

    constructor (b: Beneficiary)
      ensures beneficiary == b && form == InitialForm(b) && !submitting && error == ""
    {
      beneficiary := b;
      form := InitialForm(b);
      submitting := false;
      error := "";
    }

    /** `handleSubmit`; `reply` is how the update attempt ends. `sent` is the
        update handed to the store, `notices` the parent callbacks made. */
    method Submit(reply: StoreReply) returns (sent: Update, notices: seq<Notice>)
      modifies this
      ensures sent == UpdateFor(beneficiary, old(form))
      ensures form == old(form) && !submitting
      ensures reply.Rejected? ==> error == UpdateErrorMessage(reply.error) && notices == []
      ensures reply.Threw? ==> error == SomethingWrong && notices == []
      ensures reply.Accepted? ==> error == "" && notices == [Succeeded, Closed]
    {
      error := "";
      notices := [];
      submitting := true;
      sent := UpdateFor(beneficiary, form);
      match reply {
        case Rejected(e) =>
          error := UpdateErrorMessage(e);
          submitting := false;
          return;
        case Threw =>
          error := SomethingWrong;
        case Accepted =>
          notices := [Succeeded, Closed];
      }
      submitting := false;
    }
  }
}
