/** The contact page's enquiry form: the schema's field rules, the error map
    built from the schema's issues, per-field error clearing, and the outcome
    of a submit. */
module ContactPage {
  import opened Strings
  import opened Seqs
  import opened Catalog
  import opened ProductSelection

  /** The form's fields. */
  datatype Field =
    | FullName | MobileNumber | Email | Address | CustomerType
    | ExpectedDelivery | InstallationRequired | IsBulkOrder | Message

  predicate IsFlagField(f: Field) {
    f == InstallationRequired || f == IsBulkOrder
  }

  /** A value typed into a text field or ticked in a checkbox. */
  datatype Value = Text(text: string) | Flag(flag: bool)

  datatype ContactForm = ContactForm(
    fullName: string,
    mobileNumber: string,
    email: string,
    address: string,
    customerType: string,
    expectedDelivery: string,
    installationRequired: bool,
    isBulkOrder: bool,
    message: string)

  /** The form as first shown. */
  const InitialForm: ContactForm := ContactForm("", "", "", "", "Individual", "", false, false, "")

  /** A schema issue: a message the schema spells out, or one of the
      validation library's own messages, named by kind. */
  datatype Issue = Says(text: string) | TooLong(limit: nat) | InvalidEnum

  const NameTooShort: string := "Name must be at least 2 characters"
  const BadMobile: string := "Enter a valid 10-digit mobile number"
  const BadEmail: string := "Enter a valid email address"

  const CustomerTypes: seq<string> := ["Individual", "Electrician", "Contractor", "Business"]

  // ------------------------------------------------------------ field rules

  /** `/^[6-9]\d{9}$/`: ten characters, the first 6 to 9, the rest ASCII
      digits. */
  predicate MobileValid(s: string) {
    |s| == 10 && '6' <= s[0] <= '9' && forall i :: 1 <= i < 10 ==> IsDigit(s[i])
  }

  /** The pattern test as a left-to-right scan. */
  method MatchMobile(s: string) returns (ok: bool)
    ensures ok <==> MobileValid(s)
  {
    if |s| != 10 || !('6' <= s[0] <= '9') {
      return false;
    }
    var i := 1;
    while i < |s|
      invariant 1 <= i <= |s|
      invariant forall j :: 1 <= j < i ==> IsDigit(s[j])
    {
      if !IsDigit(s[i]) {
        return false;
      }
      i := i + 1;
    }
    return true;
  }

  /** Whether the schema rejects field `f` of `form`. `emailWellFormed`
      stands for the validation library's e-mail test. */
  predicate FieldFails(form: ContactForm, f: Field, emailWellFormed: bool) {
    match f
    case FullName => !(2 <= JsLength(form.fullName) <= 100)
    case MobileNumber => !MobileValid(form.mobileNumber)
    case Email => !emailWellFormed || JsLength(form.email) > 255
    case Address => JsLength(form.address) > 500
    case CustomerType => form.customerType !in CustomerTypes
    case Message => JsLength(form.message) > 1000
    case _ => false
  }

  /** `contactSchema.safeParse(form)` succeeds. */
  predicate FormValid(form: ContactForm, emailWellFormed: bool) {
    forall f: Field :: !FieldFails(form, f, emailWellFormed)
  }

  /** One check of the schema: the field it belongs to, whether the form
      fails it, and the issue it reports then. */
  datatype Check = Check(field: Field, fails: bool, issue: Issue)

  /** The schema's checks in the order it runs them: field by field in
      schema order, and within a field check by check. */
  function Checks(form: ContactForm, emailWellFormed: bool): (cs: seq<Check>)
    ensures |cs| == 8
  {
    [ Check(FullName, JsLength(form.fullName) < 2, Says(NameTooShort)),
      Check(FullName, JsLength(form.fullName) > 100, TooLong(100)),
      Check(MobileNumber, !MobileValid(form.mobileNumber), Says(BadMobile)),
      Check(Email, !emailWellFormed, Says(BadEmail)),
      Check(Email, JsLength(form.email) > 255, TooLong(255)),
      Check(Address, JsLength(form.address) > 500, TooLong(500)),
      Check(CustomerType, form.customerType !in CustomerTypes, InvalidEnum),
      Check(Message, JsLength(form.message) > 1000, TooLong(1000)) ]
  }

  /** `result.error.errors`: the failed checks, in order. */
  function Issues(form: ContactForm, emailWellFormed: bool): seq<Check> {
    Filter(Checks(form, emailWellFormed), Failed)
  }

  predicate Failed(c: Check) {
    c.fails
  }

  /** Some issue belongs to field `f`. */
  predicate Reported(issues: seq<Check>, f: Field) {
    exists k :: 0 <= k < |issues| && issues[k].field == f
  }

  /** The error map: each issue written under its field in order, so a
      later issue for a field overwrites an earlier one. */
  function ErrorMap(issues: seq<Check>): (m: map<Field, Issue>)
    ensures forall f :: f in m <==> Reported(issues, f)
    decreases |issues|
  {
    if issues == [] then map[]
    else
      var last := issues[|issues| - 1];
      var init := issues[..|issues| - 1];
      var m := ErrorMap(init);
      assert forall k :: 0 <= k < |init| ==> init[k] == issues[k];
      assert forall f :: Reported(init, f) ==> Reported(issues, f);
      m[last.field := last.issue]
  }

  /** Issues of other fields after the ones of `f` leave `f`'s entry alone. */
  lemma {:induction false} ErrorMapIgnoresLaterFields(a: seq<Check>, b: seq<Check>, f: Field)
    requires f in ErrorMap(a)
    requires forall j :: 0 <= j < |b| ==> b[j].field != f
    ensures f in ErrorMap(a + b) && ErrorMap(a + b)[f] == ErrorMap(a)[f]
    decreases |b|
  {
    if b == [] {
      assert a + b == a;
    } else {
      var b' := b[..|b| - 1];
      ErrorMapIgnoresLaterFields(a, b', f);
      assert (a + b)[..|a + b| - 1] == a + b';
    }
  }

  /** The last issue written for a field is the one the map keeps. */
  lemma ErrorMapLastWins(a: seq<Check>, x: Check, b: seq<Check>)
    requires forall j :: 0 <= j < |b| ==> b[j].field != x.field
    ensures x.field in ErrorMap(a + [x] + b) && ErrorMap(a + [x] + b)[x.field] == x.issue
  {
    assert (a + [x])[..|a|] == a;
    ErrorMapIgnoresLaterFields(a + [x], b, x.field);
  }

  /** The schema reports an issue for a field exactly when the field fails. */
  lemma IssuesMatchFailures(form: ContactForm, emailWellFormed: bool, f: Field)
    ensures Reported(Issues(form, emailWellFormed), f) <==> FieldFails(form, f, emailWellFormed)
  {
    if FieldFails(form, f, emailWellFormed) {
      FailingFieldReported(form, emailWellFormed, f);
    }
    if Reported(Issues(form, emailWellFormed), f) {
      ReportedFieldFails(form, emailWellFormed, f);
    }
  }

  lemma FailingFieldReported(form: ContactForm, emailWellFormed: bool, f: Field)
    requires FieldFails(form, f, emailWellFormed)
    ensures Reported(Issues(form, emailWellFormed), f)
  {
    var cs := Checks(form, emailWellFormed);
    var issues := Issues(form, emailWellFormed);
    var j := FailingCheck(form, emailWellFormed, f);
    assert Failed(cs[j]);
    assert cs[j] in issues;
    var k :| 0 <= k < |issues| && issues[k] == cs[j];
  }

  lemma ReportedFieldFails(form: ContactForm, emailWellFormed: bool, f: Field)
    requires Reported(Issues(form, emailWellFormed), f)
    ensures FieldFails(form, f, emailWellFormed)
  {
    var cs := Checks(form, emailWellFormed);
    var issues := Issues(form, emailWellFormed);
    var k :| 0 <= k < |issues| && issues[k].field == f;
    assert Failed(issues[k]) && issues[k] in cs;
    var j :| 0 <= j < |cs| && cs[j] == issues[k];
    CheckFails(form, emailWellFormed, j);
  }

  /** A failed check is a failure of its field. */
  lemma CheckFails(form: ContactForm, emailWellFormed: bool, j: nat)
    requires j < 8 && Checks(form, emailWellFormed)[j].fails
    ensures FieldFails(form, Checks(form, emailWellFormed)[j].field, emailWellFormed)
  {
    var c := Checks(form, emailWellFormed)[j];
    if j < 2 {
      assert c.field == FullName;
    } else if j < 3 {
      assert c.field == MobileNumber;
    } else if j < 5 {
      assert c.field == Email;
    } else if j == 5 {
      assert c.field == Address;
    } else if j == 6 {
      assert c.field == CustomerType;
    } else {
      assert c.field == Message;
    }
  }

  /** A check of `f` that the form fails, when `f` fails. */
  function FailingCheck(form: ContactForm, emailWellFormed: bool, f: Field): (j: nat)
    requires FieldFails(form, f, emailWellFormed)
    ensures j < 8 && Checks(form, emailWellFormed)[j].field == f && Checks(form, emailWellFormed)[j].fails
  {
    match f
    case FullName => if JsLength(form.fullName) < 2 then 0 else 1
    case MobileNumber => 2
    case Email => if !emailWellFormed then 3 else 4
    case Address => 5
    case CustomerType => 6
    case Message => 7
  }

  /** The error map has an entry for exactly the failing fields, and there
      are no issues exactly when the form is valid. */
  lemma ErrorMapDomain(form: ContactForm, emailWellFormed: bool)
    ensures forall f :: f in ErrorMap(Issues(form, emailWellFormed)) <==> FieldFails(form, f, emailWellFormed)
    ensures Issues(form, emailWellFormed) == [] <==> FormValid(form, emailWellFormed)
  {
    var issues := Issues(form, emailWellFormed);
    forall f ensures f in ErrorMap(issues) <==> FieldFails(form, f, emailWellFormed) {
      IssuesMatchFailures(form, emailWellFormed, f);
    }
    if issues != [] {
      IssuesMatchFailures(form, emailWellFormed, issues[0].field);
    }
    if !FormValid(form, emailWellFormed) {
      var f: Field :| FieldFails(form, f, emailWellFormed);
      IssuesMatchFailures(form, emailWellFormed, f);
    }
  }

  /** An e-mail address that is malformed and too long is reported as too
      long: the length check runs later and overwrites. */
  lemma EmailLengthOverwrites(form: ContactForm)
    requires JsLength(form.email) > 255
    ensures Email in ErrorMap(Issues(form, false)) && ErrorMap(Issues(form, false))[Email] == TooLong(255)
  {
    var cs := Checks(form, false);
    var head, tail := cs[..4], cs[5..];
    assert cs == head + [cs[4]] + tail;
    FilterAppend(head + [cs[4]], tail, Failed);
    FilterAppend(head, [cs[4]], Failed);
    assert Filter([cs[4]], Failed) == [cs[4]];
    var late := Filter(tail, Failed);
    assert forall j :: 0 <= j < |late| ==> late[j] in tail;
    ErrorMapLastWins(Filter(head, Failed), cs[4], late);
  }

  // ----------------------------------------------------------------- state

  datatype ContactState = ContactState(
    form: ContactForm,
    errors: map<Field, Issue>,
    isSubmitted: bool,
    selection: Selection)

  function SetField(form: ContactForm, f: Field, v: Value): ContactForm
    requires v.Flag? <==> IsFlagField(f)
  {
    match f
    case FullName => form.(fullName := v.text)
    case MobileNumber => form.(mobileNumber := v.text)
    case Email => form.(email := v.text)
    case Address => form.(address := v.text)
    case CustomerType => form.(customerType := v.text)
    case ExpectedDelivery => form.(expectedDelivery := v.text)
    case InstallationRequired => form.(installationRequired := v.flag)
    case IsBulkOrder => form.(isBulkOrder := v.flag)
    case Message => form.(message := v.text)
  }

  /** The value a field holds. */
  function Get(form: ContactForm, f: Field): Value {
    match f
    case FullName => Text(form.fullName)
    case MobileNumber => Text(form.mobileNumber)
    case Email => Text(form.email)
    case Address => Text(form.address)
    case CustomerType => Text(form.customerType)
    case ExpectedDelivery => Text(form.expectedDelivery)
    case InstallationRequired => Flag(form.installationRequired)
    case IsBulkOrder => Flag(form.isBulkOrder)
    case Message => Text(form.message)
  }

  /** `handleInputChange(field, value)`: the field takes the value, its own
      error goes, every other field and error stays. */
  function HandleInputChange(s: ContactState, f: Field, v: Value): (r: ContactState)
    requires v.Flag? <==> IsFlagField(f)
    ensures Get(r.form, f) == v
    ensures forall g :: g != f ==> Get(r.form, g) == Get(s.form, g)
    ensures f !in r.errors
    ensures forall g :: g != f ==> (g in r.errors <==> g in s.errors) && (g in s.errors ==> r.errors[g] == s.errors[g])
    ensures r.isSubmitted == s.isSubmitted && r.selection == s.selection
  {
    s.(form := SetField(s.form, f, v), errors := s.errors - {f})
  }

  /** `handleSubmit`: a valid form marks the enquiry submitted and clears the
      selection, leaving the errors as they were; an invalid one replaces
      the errors with the new map and changes nothing else. */
  function HandleSubmit(s: ContactState, emailWellFormed: bool): (r: ContactState)
    ensures r.form == s.form
    ensures FormValid(s.form, emailWellFormed) ==>
      r.isSubmitted && r.selection == [] && r.errors == s.errors
    ensures !FormValid(s.form, emailWellFormed) ==>
      && r.isSubmitted == s.isSubmitted && r.selection == s.selection
      && r.errors != map[]
      && forall f :: f in r.errors <==> FieldFails(s.form, f, emailWellFormed)
  {
    ErrorMapDomain(s.form, emailWellFormed);
    var issues := Issues(s.form, emailWellFormed);
    if issues == [] then
      s.(isSubmitted := true, selection := Clear())
    else
      assert issues[0].field in ErrorMap(issues);
      s.(errors := ErrorMap(issues))
  }

  /** Fixing a failing field and submitting again no longer reports it. */
  lemma FixedFieldNotReported(s: ContactState, emailWellFormed: bool, f: Field, v: Value)
    requires v.Flag? <==> IsFlagField(f)
    requires !FieldFails(SetField(s.form, f, v), f, emailWellFormed)
    ensures f !in HandleSubmit(HandleInputChange(s, f, v), emailWellFormed).errors
  {
  }
}
