/** The footer's newsletter form: its four-state status, what the submit
    handler posts, and what the form shows in each state.

    The form's only input has `type="email"` and `required` but no `name`
    attribute, so the `FormData` built from the form carries no `email`
    field. The model keeps that: the endpoint then answers 400 and the
    footer ends in `error` whatever was typed. */
module FooterNewsletter {
  import opened Common
  import opened NewsletterApi

  /** `newsletterStatus`: 'idle', 'submitting', 'success' or 'error'. */
  datatype Status = Idle | Submitting | Success | Error

  /** A form control: its `name` attribute, if any, and its current value. */
  datatype Control = Control(name: Option<string>, value: string)

  /** One entry of a `FormData`. */
  datatype FormEntry = FormEntry(name: string, value: string)

  /** `new FormData(form)`: one entry per control that has a non-empty name,
      in document order. */
  function EntriesOf(controls: seq<Control>): (r: seq<FormEntry>)
    ensures |r| <= |controls|
    ensures forall e :: e in r <==> exists c :: c in controls && Truthy(c.name)
                                               && e == FormEntry(c.name.value, c.value)
  {
    if |controls| == 0 then []
    else
      var rest := EntriesOf(controls[1..]);
      assert forall c :: c in controls <==> c == controls[0] || c in controls[1..];
      if Truthy(controls[0].name) then
        [FormEntry(controls[0].name.value, controls[0].value)] + rest
      else rest
  }

  /** `formData.get(name)`: the value of the first entry with that name, or
      `null`. */
  function Get(entries: seq<FormEntry>, name: string): (r: FormValue)
    ensures !r.Upload?
    ensures r.NoField? <==> forall i :: 0 <= i < |entries| ==> entries[i].name != name
    ensures r.Text? ==> exists i :: 0 <= i < |entries| && entries[i] == FormEntry(name, r.text)
                                    && forall j :: 0 <= j < i ==> entries[j].name != name
  {
    if |entries| == 0 then NoField
    else if entries[0].name == name then Text(entries[0].value)
    else Get(entries[1..], name)
  }

  /** Entries come in document order: the entries of two runs of controls
      are the entries of the first followed by those of the second. */
  lemma {:induction false} EntriesOfAppend(a: seq<Control>, b: seq<Control>)
    ensures EntriesOf(a + b) == EntriesOf(a) + EntriesOf(b)
    decreases |a|
  {
    if |a| == 0 {
      assert a + b == b;
    } else {
      assert (a + b)[1..] == a[1..] + b;
      EntriesOfAppend(a[1..], b);
    }
  }

  /** `formData.get(name)` on a form reads the control that comes first
      among those with that name. */
  lemma {:induction false} FirstNamedControlWins(controls: seq<Control>, name: string, k: int)
    requires 0 <= k < |controls| && name != "" && controls[k].name == Some(name)
    requires forall j :: 0 <= j < k ==> controls[j].name != Some(name)
    ensures Get(EntriesOf(controls), name) == Text(controls[k].value)
    decreases k
  {
    if k == 0 {
      assert EntriesOf(controls)[0] == FormEntry(name, controls[0].value);
    } else {
      var tail := controls[1..];
      assert tail[k - 1] == controls[k];
      assert forall j :: 0 <= j < k - 1 ==> tail[j] == controls[j + 1];
      FirstNamedControlWins(tail, name, k - 1);
      assert controls[0].name != Some(name);
    }
  }

  /** A form with no control of that name has no entry of that name. */
  lemma {:induction false} NoNamedControl(controls: seq<Control>, name: string)
    requires forall j :: 0 <= j < |controls| ==> controls[j].name != Some(name)
    ensures Get(EntriesOf(controls), name) == NoField
    decreases |controls|
  {
    if |controls| > 0 {
      var tail := controls[1..];
      assert forall j :: 0 <= j < |tail| ==> tail[j] == controls[j + 1];
      NoNamedControl(tail, name);
    }
  }

  /** The footer form as written: one email input without a `name`. */
  function FooterControls(typed: string): seq<Control> {
    [Control(None, typed)]
  }

  /** How the `fetch` settled: with a response of some status, or by
      throwing (a network failure). */
  datatype Outcome = Replied(status: int) | Threw

  /** The form: the status and the text in the email input. */
  datatype Form = Form(status: Status, typed: string)

  const Initial := Form(Idle, "")

  /** `onSubmit`, up to the request: the status becomes 'submitting'. */
  function Submit(f: Form): (r: Form)
    ensures r.status == Submitting && r.typed == f.typed
  {
    f.(status := Submitting)
  }

  /** `onSubmit`, after the request: an ok response gives 'success' and
      `form.reset()` empties the input; a non-ok response (thrown as
      `Request failed`) or a thrown `fetch` gives 'error' and keeps it. */
  function Settle(f: Form, outcome: Outcome): (r: Form)
    ensures r.status == Success <==> outcome.Replied? && 200 <= outcome.status <= 299
    ensures r.status == Success || r.status == Error
    ensures r.status == Success ==> r.typed == ""
    ensures r.status == Error ==> r.typed == f.typed
  {
    match outcome
    case Replied(status) =>
      if 200 <= status <= 299 then Form(Success, "") else Form(Error, f.typed)
    case Threw => Form(Error, f.typed)
  }

  /** What the endpoint receives from a form with the given controls. */
  function Post(controls: seq<Control>): (r: Response)
    ensures r.status == 200 <==> Get(EntriesOf(controls), "email").Text?
                                  && !Blank(Get(EntriesOf(controls), "email").text)
    ensures r.status != 200 ==> r.status == 400 && !r.body.ok
  {
    Action(Get(EntriesOf(controls), "email"))
  }

  /** The whole submission against the endpoint: the form ends in 'success'
      exactly when some control is named `email` and the first such control
      holds a non-blank value. */
  lemma PostSucceedsIff(f: Form, controls: seq<Control>)
    ensures Settle(Submit(f), Replied(Post(controls).status)).status == Success
        <==> Get(EntriesOf(controls), "email").Text?
             && !Blank(Get(EntriesOf(controls), "email").text)
  {
  }

  /** The footer as written always ends in 'error': its input has no name,
      so nothing is posted under `email` and the endpoint refuses. */
  lemma FooterSubmissionFails(f: Form)
    ensures Get(EntriesOf(FooterControls(f.typed)), "email").NoField?
    ensures Post(FooterControls(f.typed)).status == 400
    ensures Settle(Submit(f), Replied(Post(FooterControls(f.typed)).status)) == Form(Error, f.typed)
  {
    assert EntriesOf(FooterControls(f.typed)) == [];
  }

  /** What happens to the footer form: the visitor types, tries to submit,
      and the request started by a submit either comes back from the
      endpoint or fails on the network. */
  datatype Event = Typed(text: string) | Submitted | Answered | NetworkFailed

  /** The browser's constraint validation of the input: `required` refuses
      an empty value, and `type="email"` refuses what `valid` (the browser's
      address check, left abstract) refuses. A refused submit never reaches
      `onSubmit`. */
  predicate Submittable(valid: string -> bool, typed: string) {
    typed != "" && valid(typed)
  }

  /** One step of the footer as written. `Answered` settles with the
      endpoint's reply to the form the footer posts. */
  function Step(f: Form, e: Event, valid: string -> bool): (r: Form)
    ensures e.Typed? ==> r == Form(f.status, e.text)
    ensures e.Submitted? && Submittable(valid, f.typed) ==> r == Form(Submitting, f.typed)
    ensures e.Submitted? && !Submittable(valid, f.typed) ==> r == f
    ensures e.Answered? || e.NetworkFailed? ==> r == Form(Error, f.typed)
  {
    match e
    case Typed(text) => f.(typed := text)
    case Submitted => if Submittable(valid, f.typed) then Submit(f) else f
    case Answered =>
      FooterSubmissionFails(f);
      Settle(f, Replied(Post(FooterControls(f.typed)).status))
    case NetworkFailed => Settle(f, Threw)
  }

  /** The events applied in order: the last event acts on the form the
      earlier ones left. */
  function Run(f: Form, events: seq<Event>, valid: string -> bool): (r: Form)
    ensures |events| == 0 ==> r == f
    ensures |events| > 0 ==>
      r == Step(Run(f, events[..|events| - 1], valid), events[|events| - 1], valid)
    decreases |events|
  {
    if |events| == 0 then f
    else
      var r := Run(Step(f, events[0], valid), events[1..], valid);
      assert |events| > 1 ==> events[1..][..|events| - 2] == events[..|events| - 1][1..];
      r
  }

  /** Whatever the visitor types and however the requests settle, the footer
      as written never reaches 'success' and never shows its thanks. */
  lemma {:induction false} NeverSucceeds(f: Form, events: seq<Event>, valid: string -> bool)
    requires f.status != Success
    ensures Run(f, events, valid).status != Success
    ensures !StatusView(Run(f, events, valid).status).thanks
    decreases |events|
  {
    if |events| > 0 {
      NeverSucceeds(f, events[..|events| - 1], valid);
    }
  }

  /** The footer starts idle (`useState('idle')`) with an empty input, so
      no visit to the page ever shows the thanks message. */
  lemma FooterNeverThanks(events: seq<Event>, valid: string -> bool)
    ensures Initial.status == Idle && Initial.typed == ""
    ensures Run(Initial, events, valid).status != Success
    ensures !StatusView(Run(Initial, events, valid).status).thanks
  {
    NeverSucceeds(Initial, events, valid);
  }

  /** What the form shows for a status. */
  datatype View = View(
    buttonDisabled: bool,
    buttonLabel: string,
    thanks: bool,
    failure: bool)

  function StatusView(s: Status): (v: View)
    ensures v.buttonDisabled <==> s == Submitting
    ensures v.buttonLabel == (if s == Submitting then "Plz wait..." else "Subscribe")
    ensures v.thanks <==> s == Success
    ensures v.failure <==> s == Error
  {
    View(
      s == Submitting,
      if s == Submitting then "Plz wait..." else "Subscribe",
      s == Success,
      s == Error)
  }

  /** The success and failure messages never show together, and the view
      tells every status apart from every other. */
  lemma ViewDistinguishesStatus(a: Status, b: Status)
    ensures !(StatusView(a).thanks && StatusView(a).failure)
    ensures StatusView(a) == StatusView(b) ==> a == b
  {
  }
}
