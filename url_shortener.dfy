/**
  The URL shortener form: a list of one to five URL forms that the user
  edits, validates and submits as one batch. Validation of a URL and of a
  custom shortcode, and the shortening service itself, are parameters: the
  model fixes only how the form uses their answers.
*/
module UrlShortener {
  import opened Wrappers

  const MaxForms: nat := 5
  /** Validity, in minutes, of a blank form. */
  const DefaultValidity: int := 30
  const InitialFormId: string := "1"
  const MillisPerMinute: int := 60 * 1000
  /**
    Largest magnitude, in milliseconds, of a JavaScript Date; formatting a
    later expiry as an ISO string throws.
  */
  const MaxTimeValue: int := 8_640_000_000_000_000

  const UrlRequired: string := "URL is required"
  const InvalidUrlFormat: string := "Invalid URL format"
  const InvalidShortcodeFormat: string := "Invalid shortcode format (alphanumeric, 4-10 characters)"
  const InvalidValidity: string := "Validity must be a positive number"

  /**
    One URL form. `error` is None when no message is set (after an edit),
    Some("") after a validation that found nothing wrong.
  */
  datatype UrlForm = UrlForm(id: string, longUrl: string, validity: int, customShortcode: string, error: Option<string>)

  /** One published short URL; `expiresAt` is in milliseconds. */
  datatype ShortenedResult = ShortenedResult(id: string, shortUrl: string, longUrl: string, expiresAt: int, shortcode: string)

  /** The state the form keeps: the forms being edited and the last published results. */
  datatype State = State(forms: seq<UrlForm>, results: seq<ShortenedResult>)

  /** The edits the form's inputs make: one field set to a new value. */
  datatype FormEdit = SetLongUrl(url: string) | SetValidity(minutes: int) | SetCustomShortcode(code: string)

  /** The arguments of one call to the shortening service. */
  datatype ShortenRequest = ShortenRequest(longUrl: string, validity: int, customShortcode: string)

  /** The shortening service either answers with a shortcode or fails. */
  datatype ApiResponse = Shortened(shortcode: string) | ApiFailed(message: string)

  function BlankForm(id: string): UrlForm {
    UrlForm(id, "", DefaultValidity, "", None)
  }

  predicate IsBlank(f: UrlForm) {
    f.longUrl == "" && f.validity == DefaultValidity && f.customShortcode == "" && f.error == None
  }

  /** The bound the add and remove buttons keep. */
  predicate CountInRange(forms: seq<UrlForm>) {
    1 <= |forms| <= MaxForms
  }

  predicate UniqueIds(forms: seq<UrlForm>) {
    forall i, j :: 0 <= i < j < |forms| ==> forms[i].id != forms[j].id
  }

  predicate HasId(forms: seq<UrlForm>, id: string) {
    exists i :: 0 <= i < |forms| && forms[i].id == id
  }

  /** The state the form starts in: one blank form and no results. */
  function Initial(): (s: State)
    ensures |s.forms| == 1 && IsBlank(s.forms[0]) && s.forms[0].id == InitialFormId
    ensures s.results == []
    ensures CountInRange(s.forms) && UniqueIds(s.forms)
  {
    State([BlankForm(InitialFormId)], [])
  }

  // ---------------------------------------------------------------- adding and removing forms

  /** The "add another URL" button: a blank form is appended while fewer than five exist. */
  function AddUrlForm(forms: seq<UrlForm>, newId: string): (r: seq<UrlForm>)
    ensures |forms| < MaxForms ==>
      |r| == |forms| + 1 && r[..|forms|] == forms && IsBlank(r[|forms|]) && r[|forms|].id == newId
    ensures |forms| >= MaxForms ==> r == forms
    ensures CountInRange(forms) ==> CountInRange(r)
    ensures UniqueIds(forms) && !HasId(forms, newId) ==> UniqueIds(r)
  {
    if |forms| < MaxForms then forms + [BlankForm(newId)] else forms
  }

  /** The forms whose id differs from `id`, in their original order. */
  function WithoutId(forms: seq<UrlForm>, id: string): (r: seq<UrlForm>)
    ensures |r| <= |forms|
  {
    if forms == [] then []
    else if forms[0].id != id then [forms[0]] + WithoutId(forms[1..], id)
    else WithoutId(forms[1..], id)
  }

  /** A form is kept iff it was in the list and its id differs from the removed one. */
  lemma {:induction false} WithoutIdMembers(forms: seq<UrlForm>, id: string)
    ensures forall f :: f in WithoutId(forms, id) <==> f in forms && f.id != id
    decreases |forms|
  {
    if forms != [] {
      WithoutIdMembers(forms[1..], id);
      assert forms == [forms[0]] + forms[1..];
    }
  }

  /** Filtering distributes over concatenation, so the kept forms keep their order. */
  lemma {:induction false} WithoutIdAppend(a: seq<UrlForm>, b: seq<UrlForm>, id: string)
    ensures WithoutId(a + b, id) == WithoutId(a, id) + WithoutId(b, id)
    decreases |a|
  {
    if a != [] {
      assert (a + b)[1..] == a[1..] + b;
      WithoutIdAppend(a[1..], b, id);
    } else {
      assert a + b == b;
    }
  }

  /** Removing an id that no form carries changes nothing. */
  lemma {:induction false} WithoutAbsentId(forms: seq<UrlForm>, id: string)
    requires !HasId(forms, id)
    ensures WithoutId(forms, id) == forms
    decreases |forms|
  {
    if forms != [] {
      assert !HasId(forms[1..], id) by {
        forall i | 0 <= i < |forms[1..]| ensures forms[1..][i].id != id {
          assert forms[1..][i] == forms[i + 1];
        }
      }
      WithoutAbsentId(forms[1..], id);
      assert forms == [forms[0]] + forms[1..];
    }
  }

  /** With unique ids, no form before or after form `k` carries its id. */
  lemma UniqueIdIsAlone(forms: seq<UrlForm>, k: nat)
    requires UniqueIds(forms) && k < |forms|
    ensures !HasId(forms[..k], forms[k].id) && !HasId(forms[k + 1..], forms[k].id)
  {
    var head, tail := forms[..k], forms[k + 1..];
    forall i | 0 <= i < |head| ensures head[i].id != forms[k].id {
      assert head[i] == forms[i];
    }
    forall i | 0 <= i < |tail| ensures tail[i].id != forms[k].id {
      assert tail[i] == forms[k + 1 + i];
    }
  }

  /** Removing the id of a form that no other form carries drops exactly that form. */
  lemma WithoutLoneId(head: seq<UrlForm>, f: UrlForm, tail: seq<UrlForm>)
    requires !HasId(head, f.id) && !HasId(tail, f.id)
    ensures WithoutId(head + [f] + tail, f.id) == head + tail
  {
    assert WithoutId([f], f.id) == [] by {
      assert [f][1..] == [];
    }
    calc {
      WithoutId(head + [f] + tail, f.id);
      { WithoutIdAppend(head + [f], tail, f.id); }
      WithoutId(head + [f], f.id) + WithoutId(tail, f.id);
      { WithoutIdAppend(head, [f], f.id); }
      WithoutId(head, f.id) + WithoutId(tail, f.id);
      { WithoutAbsentId(head, f.id); WithoutAbsentId(tail, f.id); }
      head + tail;
    }
  }

  /** With unique ids, removing the id of form `k` drops exactly that form. */
  lemma WithoutUniqueId(forms: seq<UrlForm>, k: nat)
    requires UniqueIds(forms) && k < |forms|
    ensures WithoutId(forms, forms[k].id) == forms[..k] + forms[k + 1..]
  {
    var head, tail := forms[..k], forms[k + 1..];
    assert forms == head + [forms[k]] + tail;
    UniqueIdIsAlone(forms, k);
    WithoutLoneId(head, forms[k], tail);
  }

  /** The remove button: the last remaining form cannot be removed. */
  function RemoveUrlForm(forms: seq<UrlForm>, id: string): (r: seq<UrlForm>)
    ensures |forms| <= 1 ==> r == forms
    ensures |forms| > 1 ==> forall f :: f in r <==> f in forms && f.id != id
    ensures |r| <= |forms|
  {
    if |forms| > 1 then WithoutIdMembers(forms, id); WithoutId(forms, id) else forms
  }

  /** Dropping one form from a list with unique ids leaves the ids unique. */
  lemma DropKeepsUniqueIds(forms: seq<UrlForm>, k: nat)
    requires UniqueIds(forms) && k < |forms|
    ensures UniqueIds(forms[..k] + forms[k + 1..])
  {
    var r := forms[..k] + forms[k + 1..];
    forall i, j | 0 <= i < j < |r| ensures r[i].id != r[j].id {
      var i' := if i < k then i else i + 1;
      var j' := if j < k then j else j + 1;
      assert r[i] == forms[i'] && r[j] == forms[j'];
    }
  }

  /**
    With unique ids, removing drops exactly the form carrying the id (or
    nothing if none does), so the count stays within one to five.
  */
  lemma RemoveUrlFormKeepsRange(forms: seq<UrlForm>, id: string)
    requires UniqueIds(forms) && CountInRange(forms)
    ensures HasId(forms, id) && |forms| > 1 ==> |RemoveUrlForm(forms, id)| == |forms| - 1
    ensures !HasId(forms, id) ==> RemoveUrlForm(forms, id) == forms
    ensures CountInRange(RemoveUrlForm(forms, id))
    ensures UniqueIds(RemoveUrlForm(forms, id))
  {
    if |forms| > 1 {
      if HasId(forms, id) {
        var k :| 0 <= k < |forms| && forms[k].id == id;
        WithoutUniqueId(forms, k);
        DropKeepsUniqueIds(forms, k);
      } else {
        WithoutAbsentId(forms, id);
      }
    }
  }

  /**
    The guard keeps at least one form only when ids are unique: removing
    leaves no form iff there was none, or there were several and every one
    carries the removed id.
  */
  lemma RemoveEmptiesListIff(forms: seq<UrlForm>, id: string)
    ensures RemoveUrlForm(forms, id) == [] <==>
      forms == [] || (|forms| > 1 && forall i :: 0 <= i < |forms| ==> forms[i].id == id)
  {
    var r := RemoveUrlForm(forms, id);
    if |forms| > 1 {
      if r == [] {
        forall i | 0 <= i < |forms| ensures forms[i].id == id {
          assert forms[i] in forms && forms[i] !in r;
        }
      } else {
        assert r[0] in r;
        var i :| 0 <= i < |forms| && forms[i] == r[0];
        assert forms[i].id != id;
      }
    }
  }

  /** With duplicate ids the guard is not enough: two forms sharing the removed id both go. */
  lemma RemoveSharedIdEmptiesList()
    ensures RemoveUrlForm([BlankForm("7"), BlankForm("7")], "7") == []
  {
    RemoveEmptiesListIff([BlankForm("7"), BlankForm("7")], "7");
  }

  // ---------------------------------------------------------------- editing a form

  /** One form with the edited field set and its error cleared. */
  function ApplyEdit(f: UrlForm, edit: FormEdit): (g: UrlForm)
    ensures g.id == f.id && g.error == None
    ensures g.longUrl == (if edit.SetLongUrl? then edit.url else f.longUrl)
    ensures g.validity == (if edit.SetValidity? then edit.minutes else f.validity)
    ensures g.customShortcode == (if edit.SetCustomShortcode? then edit.code else f.customShortcode)
  {
    match edit
    case SetLongUrl(url) => f.(longUrl := url, error := None)
    case SetValidity(minutes) => f.(validity := minutes, error := None)
    case SetCustomShortcode(code) => f.(customShortcode := code, error := None)
  }

  /** An input change: the forms carrying `id` are edited, all others kept, in order. */
  function UpdateForm(forms: seq<UrlForm>, id: string, edit: FormEdit): (r: seq<UrlForm>)
    ensures |r| == |forms|
    ensures forall i :: 0 <= i < |forms| ==> r[i].id == forms[i].id
    ensures forall i :: 0 <= i < |forms| && forms[i].id != id ==> r[i] == forms[i]
    ensures forall i :: 0 <= i < |forms| && forms[i].id == id ==> r[i] == ApplyEdit(forms[i], edit)
  {
    if forms == [] then []
    else
      var rest := UpdateForm(forms[1..], id, edit);
      var r := [if forms[0].id == id then ApplyEdit(forms[0], edit) else forms[0]] + rest;
      assert forall i :: 1 <= i < |forms| ==> forms[i] == forms[1..][i - 1] && r[i] == rest[i - 1];
      r
  }

  /** An edit keeps the count range and unique ids. */
  lemma UpdateFormKeepsRange(forms: seq<UrlForm>, id: string, edit: FormEdit)
    requires UniqueIds(forms) && CountInRange(forms)
    ensures UniqueIds(UpdateForm(forms, id, edit)) && CountInRange(UpdateForm(forms, id, edit))
  {
  }

  // ---------------------------------------------------------------- validation

  /** One validation rule: whether it fails, and the message it shows then. */
  datatype Check = Check(fails: bool, message: string)

  /** The rules a form is checked against, in priority order. */
  function Checks(f: UrlForm, validUrl: string -> bool, validShortcode: string -> bool): seq<Check> {
    [ Check(f.longUrl == "", UrlRequired),
      Check(!validUrl(f.longUrl), InvalidUrlFormat),
      Check(f.customShortcode != "" && !validShortcode(f.customShortcode), InvalidShortcodeFormat),
      Check(f.validity < 1, InvalidValidity) ]
  }

  /** The message of the first failing rule, or "" when none fails. */
  function FirstFailure(checks: seq<Check>): string {
    if checks == [] then ""
    else if checks[0].fails then checks[0].message
    else FirstFailure(checks[1..])
  }

  /** A form that passes every rule. An empty custom shortcode is never an error. */
  predicate Acceptable(f: UrlForm, validUrl: string -> bool, validShortcode: string -> bool) {
    && f.longUrl != ""
    && validUrl(f.longUrl)
    && (f.customShortcode == "" || validShortcode(f.customShortcode))
    && 1 <= f.validity
  }

  /** The one message validation gives a form. */
  function FormError(f: UrlForm, validUrl: string -> bool, validShortcode: string -> bool): (e: string)
    ensures e == "" <==> Acceptable(f, validUrl, validShortcode)
    ensures f.customShortcode == "" ==> e != InvalidShortcodeFormat
  {
    if f.longUrl == "" then UrlRequired
    else if !validUrl(f.longUrl) then InvalidUrlFormat
    else if f.customShortcode != "" && !validShortcode(f.customShortcode) then InvalidShortcodeFormat
    else if f.validity < 1 then InvalidValidity
    else ""
  }

  /** The message validation gives is that of the first failing rule in priority order. */
  lemma FormErrorIsFirstFailure(f: UrlForm, validUrl: string -> bool, validShortcode: string -> bool)
    ensures FormError(f, validUrl, validShortcode) == FirstFailure(Checks(f, validUrl, validShortcode))
  {
    var c0 := Checks(f, validUrl, validShortcode);
    var c1 := c0[1..];
    var c2 := c1[1..];
    var c3 := c2[1..];
    assert c3[1..] == [];
    assert FirstFailure(c3) == if f.validity < 1 then InvalidValidity else "";
    assert FirstFailure(c2) == FirstFailure([c0[2]] + c3);
  }

  /** The validated forms and the overall verdict. */
  datatype Validation = Validation(forms: seq<UrlForm>, isValid: bool)

  /**
    Validation of all forms: each form gets its one message (or "") and
    keeps every other field; the verdict holds iff no form got a message.
  */
  function ValidateForms(forms: seq<UrlForm>, validUrl: string -> bool, validShortcode: string -> bool): (v: Validation)
    ensures |v.forms| == |forms|
    ensures forall i :: 0 <= i < |forms| ==>
      v.forms[i] == forms[i].(error := Some(FormError(forms[i], validUrl, validShortcode)))
    ensures v.isValid <==> forall i :: 0 <= i < |forms| ==> Acceptable(forms[i], validUrl, validShortcode)
    ensures v.isValid <==> forall i :: 0 <= i < |v.forms| ==> v.forms[i].error == Some("")
  {
    if forms == [] then Validation([], true)
    else
      var error := FormError(forms[0], validUrl, validShortcode);
      var rest := ValidateForms(forms[1..], validUrl, validShortcode);
      var v := Validation([forms[0].(error := Some(error))] + rest.forms, error == "" && rest.isValid);
      assert forall i :: 1 <= i < |forms| ==> forms[i] == forms[1..][i - 1] && v.forms[i] == rest.forms[i - 1];
      v
  }

  /** Validation touches only messages, so the count range and unique ids are kept. */
  lemma ValidateFormsKeepsRange(forms: seq<UrlForm>, validUrl: string -> bool, validShortcode: string -> bool)
    requires UniqueIds(forms) && CountInRange(forms)
    ensures UniqueIds(ValidateForms(forms, validUrl, validShortcode).forms)
    ensures CountInRange(ValidateForms(forms, validUrl, validShortcode).forms)
  {
    var v := ValidateForms(forms, validUrl, validShortcode).forms;
    forall i, j | 0 <= i < j < |v| ensures v[i].id != v[j].id {
      assert v[i].id == forms[i].id && v[j].id == forms[j].id;
    }
  }

  // ---------------------------------------------------------------- shortening the batch

  function RequestOf(f: UrlForm): ShortenRequest {
    ShortenRequest(f.longUrl, f.validity, f.customShortcode)
  }

  predicate ValidTimeValue(t: int) {
    -MaxTimeValue <= t <= MaxTimeValue
  }

  /**
    The step for one form goes through: the service answers with a
    shortcode and the expiry, counted from `now`, can be formatted.
  */
  predicate StepSucceeds(f: UrlForm, shorten: ShortenRequest -> ApiResponse, now: int) {
    shorten(RequestOf(f)).Shortened? && ValidTimeValue(now + f.validity * MillisPerMinute)
  }

  /** The steps for the first `n` forms all go through; `clock(i)` is the time of step `i`. */
  predicate SucceedsBefore(forms: seq<UrlForm>, shorten: ShortenRequest -> ApiResponse, clock: nat -> int, n: nat)
    requires n <= |forms|
  {
    forall i :: 0 <= i < n ==> StepSucceeds(forms[i], shorten, clock(i))
  }

  /** The result published for a form whose step went through at time `now`. */
  function ResultOf(f: UrlForm, shorten: ShortenRequest -> ApiResponse, origin: string, now: int): ShortenedResult
    requires shorten(RequestOf(f)).Shortened?
  {
    var code := shorten(RequestOf(f)).shortcode;
    ShortenedResult(f.id, origin + "/" + code, f.longUrl, now + f.validity * MillisPerMinute, code)
  }

  /**
    The loop of the "shorten URLs" button: the service is called once per
    form, in order, and the loop stops at the first step that fails. `ok`
    says whether every step went through; `calls` is the sequence of
    requests sent, `clock(i)` the time at which step `i` builds its result.
  */
  method ShortenEach(forms: seq<UrlForm>, shorten: ShortenRequest -> ApiResponse, origin: string, clock: nat -> int)
    returns (ok: bool, results: seq<ShortenedResult>, calls: seq<ShortenRequest>)
    ensures ok <==> SucceedsBefore(forms, shorten, clock, |forms|)
    ensures |calls| <= |forms|
    ensures forall i :: 0 <= i < |calls| ==> calls[i] == RequestOf(forms[i])
    ensures ok ==> |calls| == |forms| && |results| == |forms|
    ensures ok ==> forall i :: 0 <= i < |forms| ==> results[i] == ResultOf(forms[i], shorten, origin, clock(i))
    ensures forall k ::
      (0 <= k < |forms| && SucceedsBefore(forms, shorten, clock, k) && !StepSucceeds(forms[k], shorten, clock(k)))
      ==> |calls| == k + 1
  {
    results, calls := [], [];
    var i: nat := 0;
    while i < |forms|
      invariant i <= |forms|
      invariant |calls| == i && |results| == i
      invariant SucceedsBefore(forms, shorten, clock, i)
      invariant forall j :: 0 <= j < i ==> calls[j] == RequestOf(forms[j])
      invariant forall j :: 0 <= j < i ==> results[j] == ResultOf(forms[j], shorten, origin, clock(j))
    {
      var form := forms[i];
      var request := RequestOf(form);
      calls := calls + [request];
      var response := shorten(request);
      if response.ApiFailed? {
        return false, results, calls;
      }
      var expiresAt := clock(i) + form.validity * MillisPerMinute;
      if !ValidTimeValue(expiresAt) {
        return false, results, calls;
      }
      results := results + [ShortenedResult(form.id, origin + "/" + response.shortcode, form.longUrl, expiresAt, response.shortcode)];
      i := i + 1;
    }
    ok := true;
  }

  /**
    The "shorten URLs" button. Forms are validated first; if any is
    rejected, the validated forms (with their messages) are shown and nothing
    is sent. Otherwise the forms are shortened one by one; only when every
    step goes through are the results published and the forms reset to one
    blank form with id `resetId`; a failed step leaves the validated forms
    and the previous results in place.
  */
  method HandleShortenUrls(s: State, validUrl: string -> bool, validShortcode: string -> bool,
                           shorten: ShortenRequest -> ApiResponse, origin: string,
                           clock: nat -> int, resetId: string)
    returns (s': State, calls: seq<ShortenRequest>)
    // a rejected batch sends nothing and keeps the results
    ensures var v := ValidateForms(s.forms, validUrl, validShortcode);
      !v.isValid ==> s' == State(v.forms, s.results) && calls == []
    // the requests sent are those of the forms, in order
    ensures |calls| <= |s.forms| && forall i :: 0 <= i < |calls| ==> calls[i] == RequestOf(s.forms[i])
    // the first step that fails ends the batch; nothing is published
    ensures var v := ValidateForms(s.forms, validUrl, validShortcode);
      forall k ::
        (v.isValid && 0 <= k < |s.forms| && SucceedsBefore(s.forms, shorten, clock, k) &&
         !StepSucceeds(s.forms[k], shorten, clock(k)))
        ==> |calls| == k + 1 && s' == State(v.forms, s.results)
    // when every step goes through, one result per form is published and the forms reset
    ensures var v := ValidateForms(s.forms, validUrl, validShortcode);
      v.isValid && SucceedsBefore(s.forms, shorten, clock, |s.forms|) ==>
        && |calls| == |s.forms|
        && s'.forms == [BlankForm(resetId)]
        && |s'.results| == |s.forms|
        && forall i :: 0 <= i < |s.forms| ==>
             && s'.results[i].id == s.forms[i].id
             && s'.results[i].longUrl == s.forms[i].longUrl
             && s'.results[i].shortcode == shorten(RequestOf(s.forms[i])).shortcode
             && s'.results[i].shortUrl == origin + "/" + s'.results[i].shortcode
             && s'.results[i].expiresAt == clock(i) + s.forms[i].validity * MillisPerMinute
    // all or nothing
    ensures s'.results == s.results || (|s'.results| == |s.forms| && s'.forms == [BlankForm(resetId)])
    ensures s'.forms == ValidateForms(s.forms, validUrl, validShortcode).forms || s'.forms == [BlankForm(resetId)]
    // the batch keeps the bound of one to five forms with unique ids
    ensures CountInRange(s.forms) && UniqueIds(s.forms) ==> CountInRange(s'.forms) && UniqueIds(s'.forms)
  {
    var v := ValidateForms(s.forms, validUrl, validShortcode);
    if CountInRange(s.forms) && UniqueIds(s.forms) {
      ValidateFormsKeepsRange(s.forms, validUrl, validShortcode);
    }
    if !v.isValid {
      return State(v.forms, s.results), [];
    }
    var ok, results;
    ok, results, calls := ShortenEach(s.forms, shorten, origin, clock);
    if ok {
      s' := State([BlankForm(resetId)], results);
    } else {
      s' := State(v.forms, s.results);
    }
  }
}
