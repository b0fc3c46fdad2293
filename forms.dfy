/** What the sign-up and log-in pages share: the error map keyed by form
    field, the e-mail rule `/\S+@\S+\.\S+/.test(email)`, and the notice
    shown once the request to the server settles. */
module Forms {
  import opened Wrappers
  import opened Text
  import Toasts

  datatype Field = Name | Email | Password | ConfirmPassword

  /** The `newErrors` object: a message per field that failed. */
  type Errors = map<Field, string>

  const EmailRequired: string := "Email is required"
  const EmailInvalid: string := "Invalid email format"
  const PasswordRequired: string := "Password is required"

  /** No white space in `s[lo..hi]`. */
  predicate NoSpaceIn(s: string, lo: nat, hi: nat)
    requires lo <= hi <= |s|
  {
    forall i :: lo <= i < hi ==> !IsSpace(s[i])
  }

  /** `s[a..b]` is a match of `\S+@\S+\.\S+` whose `@` is at `p` and whose
      `.` is at `q`: each `\S+` is a non-empty run without white space. */
  ghost predicate MatchAt(s: string, a: int, p: int, q: int, b: int) {
    0 <= a < p && p + 1 < q && q + 1 < b <= |s| && s[p] == '@' && s[q] == '.'
    && NoSpaceIn(s, a, b)
  }

  /** `test` is not anchored: a match anywhere in the string will do. */
  ghost predicate EmailPattern(s: string) {
    exists a, p, q, b :: MatchAt(s, a, p, q, b)
  }

  /** The test the pages run: an `@` and a later `.` with one
      non-space character before the `@`, one between the two and one
      after the `.`, none of them white space. */
  predicate LooksLikeEmail(s: string) {
    exists p, q | 0 < p < |s| && p + 1 < q < |s| - 1 ::
      s[p] == '@' && s[q] == '.' && NoSpaceIn(s, p - 1, q + 2)
  }

  /** The test accepts exactly the strings the regular expression
      matches somewhere. */
  lemma LooksLikeEmailIsPattern(s: string)
    ensures LooksLikeEmail(s) <==> EmailPattern(s)
  {
    if LooksLikeEmail(s) {
      var p, q :| 0 < p < |s| && p + 1 < q < |s| - 1 && s[p] == '@' && s[q] == '.' && NoSpaceIn(s, p - 1, q + 2);
      assert MatchAt(s, p - 1, p, q, q + 2);
    }
    if EmailPattern(s) {
      var a, p, q, b :| MatchAt(s, a, p, q, b);
      assert NoSpaceIn(s, p - 1, q + 2);
    }
  }

  /** Text around an accepted address does not make it unaccepted. */
  lemma LooksLikeEmailInContext(s: string, before: string, after: string)
    requires LooksLikeEmail(s)
    ensures LooksLikeEmail(before + s + after)
  {
    var p, q :| 0 < p < |s| && p + 1 < q < |s| - 1 && s[p] == '@' && s[q] == '.' && NoSpaceIn(s, p - 1, q + 2);
    var t := before + s + after;
    var k := |before|;
    assert t[k + p] == '@' && t[k + q] == '.';
    forall i | k + p - 1 <= i < k + q + 2 ensures !IsSpace(t[i]) {
      assert t[i] == s[i - k];
    }
    assert NoSpaceIn(t, k + p - 1, k + q + 2);
  }

  /** Some inputs: the shortest address passes; a missing domain dot, an
      empty user part and a space after the `@` fail. */
  lemma EmailExamples()
    ensures LooksLikeEmail("a@b.c")
    ensures !LooksLikeEmail("a@b")
    ensures !LooksLikeEmail("@b.c")
    ensures !LooksLikeEmail("a@ b.c")
  {
    var ok := "a@b.c";
    assert ok[1] == '@' && ok[3] == '.' && NoSpaceIn(ok, 0, 5);
    var spaced := "a@ b.c";
    assert forall p | 0 <= p < |spaced| && spaced[p] == '@' :: p == 1;
    assert IsSpace(spaced[2]);
  }

  /** `if (!email) … else if (!regex.test(email)) …`: the e-mail message,
      or none. */
  function EmailError(email: string): (r: Option<string>)
    ensures r.None? <==> LooksLikeEmail(email)
    ensures r == Some(EmailRequired) <==> email == ""
    ensures r.Some? && email != "" ==> r.value == EmailInvalid
  {
    if email == "" then Some(EmailRequired)
    else if !LooksLikeEmail(email) then Some(EmailInvalid)
    else None
  }

  /** Adds the message, when there is one, to the errors. */
  function WithError(errors: Errors, field: Field, message: Option<string>): (r: Errors)
    ensures message.None? ==> r == errors
    ensures message.Some? ==> r == errors[field := message.value]
  {
    match message
    case None => errors
    case Some(m) => errors[field := m]
  }

  /** `validate()` returns `Object.keys(newErrors).length === 0`. */
  predicate NoErrors(errors: Errors) {
    |errors| == 0
  }

  /** No error means no field has one. */
  lemma NoErrorsExactly(errors: Errors)
    ensures NoErrors(errors) <==> forall f :: f !in errors
  {
    if !NoErrors(errors) {
      var f :| f in errors.Keys;
    }
  }

  /** The toast and navigation after the server answered. */
  datatype Notice = Notice(kind: Toasts.ToastType, message: string, navigateTo: Option<string>)

  /** `toast.success(...)` and a move to `/dashboard` on success;
      otherwise `toast.error(serverMessage || fallback)` and no move. */
  function Settled(reply: Result<(), Option<string>>, welcome: string, fallback: string): (n: Notice)
    ensures reply.Success? ==> n == Notice(Toasts.Success, welcome, Some("/dashboard"))
    ensures reply.Failure? ==> n.kind == Toasts.Error && n.navigateTo.None?
    ensures reply.Failure? && fallback != "" ==> n.message != ""
    ensures reply.Failure? && (reply.error.None? || reply.error == Some("")) ==> n.message == fallback
    ensures reply.Failure? && reply.error.Some? && reply.error.value != "" ==> n.message == reply.error.value
    ensures reply.Failure? ==> n.message == OrElse(reply.error, fallback)
  {
    match reply
    case Success(_) => Notice(Toasts.Success, welcome, Some("/dashboard"))
    case Failure(m) => Notice(Toasts.Error, OrElse(m, fallback), None)
  }
}
