/** The beneficiary record, the insert payload, the replies of the remote
    store, and the form-field conversions shared by the Add and Edit forms. */
module Records {
  import opened Strings

  datatype Option<T> = None | Some(value: T)

  /** The two location tabs, `"inside_giki"` and `"outside_giki"`. */
  datatype Location = InsideGiki | OutsideGiki

  /** `"pending"` or `"done"`. */
  datatype Status = Pending | Done

  /** A row of the `beneficiaries` table. `zakaatEligible` is the tri-state
      `boolean | null`: `Some(true)`, `Some(false)` or `None`. */
  datatype Beneficiary = Beneficiary(
    id: string,
    name: Option<string>,
    cnic: string,
    phone: Option<string>,
    designation: Option<string>,
    location: Location,
    zakaatEligible: Option<bool>,
    status: Status,
    createdAt: string)

  /** What the client inserts: a beneficiary without `id` and `created_at`,
      which the store assigns. */
  datatype NewBeneficiary = NewBeneficiary(
    name: Option<string>,
    cnic: string,
    phone: Option<string>,
    designation: Option<string>,
    location: Location,
    zakaatEligible: Option<bool>,
    status: Status)

  /** The `error` object of a store reply: a Postgres error code and a message. */
  datatype StoreError = StoreError(code: string, message: string)

  /** The outcome of one insert or update call on the store: no error, an
      error object in the reply, or an exception thrown by the call. */
  datatype StoreReply = Accepted | Rejected(error: StoreError) | Threw

  /** `s.trim() || null`: the trimmed text, or null when nothing is left. */
  function TrimOrNull(s: string): Option<string> {
    var t := Trim(s);
    if t == [] then None else Some(t)
  }

  /** `TrimOrNull` is null exactly for all-whitespace text, and otherwise
      the trimmed text, non-empty. */
  lemma TrimOrNullSpec(s: string)
    ensures var r := TrimOrNull(s);
      (r == None <==> AllSpace(s)) &&
      (r.Some? ==> r.value == Trim(s) && r.value != [] && IsTrimmed(r.value))
  {
    TrimSpec(s);
  }

  /** Text that `TrimOrNull` stores unchanged: null, or non-empty and trimmed. */
  predicate IsNormalText(v: Option<string>) {
    v.None? || (v.value != [] && IsTrimmed(v.value))
  }

  /** `v ?? ""`: a nullable text as shown, null as the empty string. */
  function OrEmpty(v: Option<string>): (s: string)
    ensures v.None? ==> s == ""
    ensures v.Some? ==> s == v.value
  {
    if v.Some? then v.value else ""
  }

  /** A stored text field shown in a form and saved again comes back
      unchanged exactly when it was already normal. */
  lemma {:induction false} TrimOrNullShown(v: Option<string>)
    ensures TrimOrNull(OrEmpty(v)) == v <==> IsNormalText(v)
  {
    var s := OrEmpty(v);
    TrimOrNullSpec(s);
    TrimSpec(s);
    if v.Some? && v.value == [] {
      assert AllSpace(v.value);
    }
  }

  /** The `zakaat_eligible` select: `""` is null, `"true"` is true and any
      other value is false. */
  function ZakaatFromForm(s: string): (r: Option<bool>)
    ensures r == None <==> s == ""
    ensures r == Some(true) <==> s == "true"
  {
    if s == "" then None else Some(s == "true")
  }

  /** The select value shown for a stored `zakaat_eligible`. */
  function ZakaatToForm(v: Option<bool>): (s: string)
    ensures s == "" <==> v == None
    ensures s == "true" <==> v == Some(true)
    ensures s == "false" <==> v == Some(false)
  {
    match v
    case None => ""
    case Some(b) => if b then "true" else "false"
  }

  /** Showing a stored value in the select and reading it back gives the
      stored value. */
  lemma ZakaatRoundTrip(v: Option<bool>)
    ensures ZakaatFromForm(ZakaatToForm(v)) == v
  {
  }

  /** Each of the three options of the select survives being read and shown
      again. */
  lemma ZakaatOptionsRoundTrip(s: string)
    requires s == "" || s == "true" || s == "false"
    ensures ZakaatToForm(ZakaatFromForm(s)) == s
  {
  }
}
