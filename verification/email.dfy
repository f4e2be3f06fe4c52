/** The alert-email form: the validity test behind its pattern, the submit
    decision and the field's change handler. Toasts, session storage and
    navigation are returned as an outcome rather than performed. */
module EmailForm {
  import opened Common

  /** A character the pattern's class `[^\s@]` accepts. */
  predicate Plain(c: char) {
    !IsJsWhitespace(c) && c != '@'
  }

  predicate AllPlain(s: string) {
    forall i :: 0 <= i < |s| ==> Plain(s[i])
  }

  /** What `/^[^\s@]+@[^\s@]+\.[^\s@]+$/` matches: a non-empty run of plain
      characters, an `@`, a non-empty plain run, a `.`, and a non-empty plain
      run to the end. The two positions are the `@` and the `.` the match
      uses. */
  ghost predicate EmailPattern(s: string)
    ensures EmailPattern(s) ==> |s| >= 5 && '@' in s && '.' in s
  {
    exists at, dot | 0 < at && at + 1 < dot && dot + 1 < |s| ::
      && s[at] == '@' && s[dot] == '.'
      && AllPlain(s[..at]) && AllPlain(s[at + 1..dot]) && AllPlain(s[dot + 1..])
  }

  /** The domain has a `.` that is neither its first nor its last character. */
  predicate InnerDot(d: string) {
    |d| >= 3 && IndexOf(d[1..|d| - 1], '.').Some?
  }

  /** `validateEmail`, decided by scanning: a non-empty local part before the
      first `@`, no whitespace and no second `@` anywhere, and a domain with an
      inner `.`. */
  function ValidateEmail(s: string): (ok: bool)
    ensures ok <==> EmailPattern(s)
    ensures ok ==> |s| >= 5
  {
    ValidateMatchesPattern(s);
    match IndexOf(s, '@')
    case None => false
    case Some(at) => at > 0 && AllPlain(s[..at]) && AllPlain(s[at + 1..]) && InnerDot(s[at + 1..])
  }

  /** The scanning test and the pattern accept the same strings. */
  lemma ValidateMatchesPattern(s: string)
    ensures (match IndexOf(s, '@')
             case None => false
             case Some(at) => at > 0 && AllPlain(s[..at]) && AllPlain(s[at + 1..])
                              && InnerDot(s[at + 1..]))
            <==> EmailPattern(s)
  {
    match IndexOf(s, '@')
    case None =>
      PatternHasAt(s);
    case Some(at) =>
      if at > 0 && AllPlain(s[..at]) && AllPlain(s[at + 1..]) && InnerDot(s[at + 1..]) {
        ScanGivesPattern(s, at);
      }
      if EmailPattern(s) {
        PatternGivesScan(s, at);
      }
  }

  lemma ScanGivesPattern(s: string, at: nat)
    requires at < |s| && s[at] == '@' && 0 < at
    requires AllPlain(s[..at]) && AllPlain(s[at + 1..]) && InnerDot(s[at + 1..])
    ensures EmailPattern(s)
  {
    var d := s[at + 1..];
    var k := IndexOf(d[1..|d| - 1], '.').value;
    var dot := at + 2 + k;
    assert s[dot] == d[1..|d| - 1][k];
    assert s[at + 1..dot] == d[..k + 1];
    assert s[dot + 1..] == d[k + 2..];
    AllPlainSlice(d, 0, k + 1);
    AllPlainSlice(d, k + 2, |d|);
    assert 0 < at && at + 1 < dot && dot + 1 < |s|
           && s[at] == '@' && s[dot] == '.'
           && AllPlain(s[..at]) && AllPlain(s[at + 1..dot]) && AllPlain(s[dot + 1..]);
  }

  lemma AllPlainSlice(d: string, lo: nat, hi: nat)
    requires lo <= hi <= |d| && AllPlain(d)
    ensures AllPlain(d[lo..hi])
  {
    forall i | 0 <= i < hi - lo
      ensures Plain(d[lo..hi][i])
    {
      assert d[lo..hi][i] == d[lo + i];
    }
  }

  lemma PatternHasAt(s: string)
    ensures EmailPattern(s) ==> IndexOf(s, '@').Some?
  {
    if EmailPattern(s) {
      var at, dot :| 0 < at && at + 1 < dot && dot + 1 < |s| && s[at] == '@' && s[dot] == '.';
      assert s[at] == '@';
    }
  }

  lemma AllPlainConcat(a: string, b: string)
    ensures AllPlain(a + b) <==> AllPlain(a) && AllPlain(b)
  {
    if AllPlain(a) && AllPlain(b) {
      forall i | 0 <= i < |a + b|
        ensures Plain((a + b)[i])
      {
        if i >= |a| {
          assert (a + b)[i] == b[i - |a|];
        }
      }
    }
    if AllPlain(a + b) {
      forall i | 0 <= i < |a|
        ensures Plain(a[i])
      {
        assert (a + b)[i] == a[i];
      }
      forall i | 0 <= i < |b|
        ensures Plain(b[i])
      {
        assert (a + b)[|a| + i] == b[i];
      }
    }
  }

  /** The `@` a match uses is the first one. */
  lemma PatternAtIsFirst(s: string, first: nat, at: nat)
    requires IndexOf(s, '@') == Some(first)
    requires at < |s| && s[at] == '@' && AllPlain(s[..at])
    ensures first == at
  {
    forall i | 0 <= i < at
      ensures s[i] != '@'
    {
      assert s[..at][i] == s[i];
    }
  }

  /** Everything after the `@` of a match is plain, with an inner `.`. */
  lemma PatternDomain(s: string, at: nat, dot: nat)
    requires 0 < at && at + 1 < dot && dot + 1 < |s| && s[dot] == '.'
    requires AllPlain(s[at + 1..dot]) && AllPlain(s[dot + 1..])
    ensures AllPlain(s[at + 1..]) && InnerDot(s[at + 1..])
  {
    var d := s[at + 1..];
    assert d == s[at + 1..dot] + "." + s[dot + 1..];
    AllPlainConcat(s[at + 1..dot], ".");
    AllPlainConcat(s[at + 1..dot] + ".", s[dot + 1..]);
    var inner := d[1..|d| - 1];
    assert inner[dot - at - 2] == '.';
  }

  lemma PatternGivesScan(s: string, first: nat)
    requires EmailPattern(s) && IndexOf(s, '@') == Some(first)
    ensures 0 < first && AllPlain(s[..first]) && AllPlain(s[first + 1..]) && InnerDot(s[first + 1..])
  {
    var at, dot :| 0 < at && at + 1 < dot && dot + 1 < |s|
                   && s[at] == '@' && s[dot] == '.'
                   && AllPlain(s[..at]) && AllPlain(s[at + 1..dot]) && AllPlain(s[dot + 1..]);
    PatternAtIsFirst(s, first, at);
    PatternDomain(s, at, dot);
  }

  /** A plain address is accepted. */
  lemma AcceptsPlainAddress(s: string)
    requires s == "user@example.com"
    ensures ValidateEmail(s)
  {
    assert s[4] == '@' && s[12] == '.';
    assert AllPlain(s[..4]) && AllPlain(s[5..12]) && AllPlain(s[13..]);
  }

  /** A domain without a dot is rejected. */
  lemma RejectsDotlessDomain(s: string)
    requires s == "user@example"
    ensures !ValidateEmail(s)
  {
    assert forall i | 0 <= i < |s| :: s[i] != '.';
  }

  /** A space before the `@` is rejected. */
  lemma RejectsSpace(s: string)
    requires s == "a b@c.de"
    ensures !ValidateEmail(s)
  {
    assert s[3] == '@';
    assert forall i | 0 <= i < |s| && i != 3 :: s[i] != '@';
    assert !Plain(s[..3][1]);
  }

  /** A second `@` is rejected. */
  lemma RejectsSecondAt(s: string)
    requires s == "a@b@c.de"
    ensures !ValidateEmail(s)
  {
    assert IndexOf(s, '@') == Some(1);
    assert s[2..][1] == '@';
  }

  // ---------------------------------------------------------------------------
  // The form

  /** The field's text and whether it is shown as valid. */
  datatype FormState = FormState(email: string, isValid: bool)

  /** What a submit does besides updating the form. */
  datatype SubmitOutcome =
    | Rejected(toastError: string)
    | Accepted(storageKey: string, stored: string, toastSuccess: string, route: string)

  const EmptyMessage := "Please enter your email address"
  const InvalidMessage := "Please enter a valid email address"
  const SavedMessage := "Email saved! You can now upload a video."
  const StorageKey := "alertEmail"
  const UploadRoute := "/upload"

  /** The form as the page mounts. */
  function InitialForm(): (f: FormState)
    ensures f.email == "" && f.isValid
  {
    FormState("", true)
  }

  /** `handleSubmit`: an empty field and a malformed address are each rejected
      with their own message and mark the field invalid; a well-formed address
      is stored under `alertEmail` and the page moves to the upload route. */
  function HandleSubmit(f: FormState): (r: (FormState, SubmitOutcome))
    ensures r.0.email == f.email
    ensures r.1.Accepted? <==> EmailPattern(f.email)
    ensures f.email == "" ==> r == (f.(isValid := false), Rejected(EmptyMessage))
    ensures f.email != "" && !EmailPattern(f.email) ==>
              r == (f.(isValid := false), Rejected(InvalidMessage))
    ensures EmailPattern(f.email) ==>
              r == (f, Accepted(StorageKey, f.email, SavedMessage, UploadRoute))
  {
    if f.email == "" then (f.(isValid := false), Rejected(EmptyMessage))
    else if !ValidateEmail(f.email) then (f.(isValid := false), Rejected(InvalidMessage))
    else (f, Accepted(StorageKey, f.email, SavedMessage, UploadRoute))
  }

  /** `handleEmailChange`: the field takes the typed value and is shown valid
      again. */
  function HandleEmailChange(f: FormState, value: string): (r: FormState)
    ensures r.email == value && r.isValid
  {
    FormState(value, true)
  }

  /** Typing after a rejected submit clears the invalid mark, and the next
      submit is decided by the new text alone. */
  lemma EditThenSubmit(f: FormState, value: string)
    ensures HandleEmailChange(HandleSubmit(f).0, value).isValid
    ensures HandleSubmit(HandleEmailChange(f, value)) == HandleSubmit(FormState(value, true))
    ensures HandleSubmit(HandleEmailChange(f, value)).1.Accepted? <==> EmailPattern(value)
  {
  }

  /** A submit never changes the text, so submitting again gives the same
      outcome. */
  lemma SubmitTwice(f: FormState)
    ensures HandleSubmit(HandleSubmit(f).0).1 == HandleSubmit(f).1
  {
  }

  /** The handler, called on the untouched form, asks for an address. */
  lemma SubmitEmptyForm()
    ensures HandleSubmit(InitialForm()) == (FormState("", false), Rejected(EmptyMessage))
  {
  }
}
