/**
 * The shape checks the login and signup actions run on the submitted form
 * before touching storage. Both check the username the same way; they differ
 * in the longest password they take (255 code units at login, 200 at signup).
 */
module Credentials {
  import opened Js
  import opened Kit

  const InvalidUsername := "Invalid username"
  const InvalidPassword := "Invalid password"

  /** The character class `[a-z0-9_-]`. */
  predicate IsUsernameChar(c: char) {
    'a' <= c <= 'z' || '0' <= c <= '9' || c == '_' || c == '-'
  }

  /** `/^[a-z0-9_-]+$/.test(s)`: one or more characters of the class, anchored at both ends. */
  function MatchesUsernamePattern(s: string): (b: bool)
    ensures b <==> s != [] && forall i :: 0 <= i < |s| ==> IsUsernameChar(s[i])
  {
    if s == [] then false
    else
      var rest := |s| == 1 || MatchesUsernamePattern(s[1..]);
      assert forall i :: 1 <= i < |s| ==> s[i] == s[1..][i - 1];
      IsUsernameChar(s[0]) && rest
  }

  /**
   * The username test shared by both actions: a string, at least 3 and at most
   * 31 code units long, matching the pattern. The conditions are tried in the
   * order the `||` chain writes them.
   */
  function UsernameAccepted(v: FormValue): (b: bool)
    ensures b <==> v.Text? && 3 <= |v.s| <= 31 && forall i :: 0 <= i < |v.s| ==> IsUsernameChar(v.s[i])
  {
    if !v.Text? then false
    else
      var accepted := !(Utf16Length(v.s) < 3 || Utf16Length(v.s) > 31 || !MatchesUsernamePattern(v.s));
      // A string the pattern accepts is ASCII, so its JavaScript length is its character count.
      if MatchesUsernamePattern(v.s) then Utf16LengthOfBmp(v.s); accepted else accepted
  }

  /** A string of 6 up to `max` code units. */
  function PasswordAccepted(v: FormValue, max: nat): (b: bool)
    ensures b ==> v.Text? && 3 <= |v.s| <= max
    ensures v.Text? && (forall i :: 0 <= i < |v.s| ==> v.s[i] as int < 0x1_0000) ==>
              (b <==> 6 <= |v.s| <= max)
  {
    if !v.Text? then false
    else
      var accepted := !(Utf16Length(v.s) < 6 || Utf16Length(v.s) > max);
      if forall i :: 0 <= i < |v.s| ==> v.s[i] as int < 0x1_0000 then Utf16LengthOfBmp(v.s); accepted
      else accepted
  }

  function LoginPasswordAccepted(v: FormValue): bool {
    PasswordAccepted(v, 255)
  }

  function SignupPasswordAccepted(v: FormValue): bool {
    PasswordAccepted(v, 200)
  }

  /** Form fields that passed the checks, or the failure the action returns. */
  datatype FormCheck = Accepted(username: string, password: string) | Rejected(failure: ActionResult)

  /**
   * Lines 12-29 of the login action: the username is judged first, so a bad one
   * gives "Invalid username" whatever the password is.
   */
  function CheckLogin(username: FormValue, password: FormValue): (r: FormCheck)
    ensures !UsernameAccepted(username) ==> r == Rejected(Fail(400, Some(InvalidUsername)))
    ensures UsernameAccepted(username) && !LoginPasswordAccepted(password) ==>
              r == Rejected(Fail(400, Some(InvalidPassword)))
    ensures r.Accepted? <==> UsernameAccepted(username) && LoginPasswordAccepted(password)
    ensures r.Accepted? ==> username == Text(r.username) && password == Text(r.password)
  {
    if !UsernameAccepted(username) then Rejected(Fail(400, Some(InvalidUsername)))
    else if !LoginPasswordAccepted(password) then Rejected(Fail(400, Some(InvalidPassword)))
    else Accepted(username.s, password.s)
  }

  /** Lines 11-29 of the signup action: the same username rule, and passwords of at most 200 code units. */
  function CheckSignup(username: FormValue, password: FormValue): (r: FormCheck)
    ensures !UsernameAccepted(username) ==> r == Rejected(Fail(400, Some(InvalidUsername)))
    ensures UsernameAccepted(username) && !SignupPasswordAccepted(password) ==>
              r == Rejected(Fail(400, Some(InvalidPassword)))
    ensures r.Accepted? <==> UsernameAccepted(username) && SignupPasswordAccepted(password)
    ensures r.Accepted? ==> username == Text(r.username) && password == Text(r.password)
  {
    if !UsernameAccepted(username) then Rejected(Fail(400, Some(InvalidUsername)))
    else if !SignupPasswordAccepted(password) then Rejected(Fail(400, Some(InvalidPassword)))
    else Accepted(username.s, password.s)
  }

  /**
   * Every form signup accepts, login accepts with the same credentials; the
   * converse fails exactly for passwords of 201 to 255 code units.
   */
  lemma SignupAcceptedByLogin(username: FormValue, password: FormValue)
    ensures CheckSignup(username, password).Accepted? ==>
              CheckLogin(username, password) == CheckSignup(username, password)
    ensures (CheckLogin(username, password).Accepted? && !CheckSignup(username, password).Accepted?) <==>
              UsernameAccepted(username) && password.Text? && 201 <= Utf16Length(password.s) <= 255
  {
  }

  /** A password of 201 ASCII characters passes login's check and fails signup's. */
  lemma LongPasswordOnlyAtLogin()
    ensures var p := Text(seq(201, _ => 'a'));
      LoginPasswordAccepted(p) && !SignupPasswordAccepted(p)
  {
    var s := seq(201, _ => 'a');
    Utf16LengthOfBmp(s);
  }
}
