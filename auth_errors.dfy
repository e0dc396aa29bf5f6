/**
 * The user-facing messages for the error codes of the identity provider:
 * `mapError` of the session provider, and the shorter chain that the
 * sign-on form applies to a failed e-mail sign-in or sign-up.
 */
module AuthErrors {
  import opened Wrappers
  import opened Strings

  const FAILED := "Authentication failed."
  const BAD_CREDENTIALS := "Invalid email or password."
  const EMAIL_IN_USE := "Email already in use."

  /** Every message `mapError` can give. */
  const MESSAGES: seq<string> := [
    FAILED,
    "Invalid Firebase API key.",
    "Domain not authorized in Firebase Authentication settings.",
    "Provider not enabled in Firebase console.",
    "Popup was blocked. Enable popups for this site.",
    "Popup closed before completing sign in.",
    EMAIL_IN_USE,
    "Password too weak.",
    BAD_CREDENTIALS
  ]

  /** `mapError(code)`: an ordered chain of substring tests; the first one
      that holds picks the message. A missing or empty code fails plainly. */
  function MapError(code: Option<string>): (r: string)
    ensures r in MESSAGES
    ensures code.None? || code == Some("") ==> r == FAILED
  {
    if code.None? || code.value == "" then FAILED
    else
      var c := code.value;
      if Contains(c, "invalid-api-key") then MESSAGES[1]
      else if Contains(c, "unauthorized-domain") then MESSAGES[2]
      else if Contains(c, "operation-not-allowed") then MESSAGES[3]
      else if Contains(c, "popup-blocked") then MESSAGES[4]
      else if Contains(c, "popup-closed-by-user") then MESSAGES[5]
      else if Contains(c, "email-already-in-use") then EMAIL_IN_USE
      else if Contains(c, "weak-password") then MESSAGES[7]
      else if Contains(c, "wrong-password") || Contains(c, "user-not-found") then BAD_CREDENTIALS
      else FAILED
  }

  /** One test of the chain: any of `needles` in the code gives `message`. */
  datatype Rule = Rule(needles: seq<string>, message: string)

  /** The chain of `mapError` as a table, in order. */
  const RULES: seq<Rule> := [
    Rule(["invalid-api-key"], MESSAGES[1]),
    Rule(["unauthorized-domain"], MESSAGES[2]),
    Rule(["operation-not-allowed"], MESSAGES[3]),
    Rule(["popup-blocked"], MESSAGES[4]),
    Rule(["popup-closed-by-user"], MESSAGES[5]),
    Rule(["email-already-in-use"], EMAIL_IN_USE),
    Rule(["weak-password"], MESSAGES[7]),
    Rule(["wrong-password", "user-not-found"], BAD_CREDENTIALS)
  ]

  predicate Matches(r: Rule, c: string) {
    exists k :: 0 <= k < |r.needles| && Contains(c, r.needles[k])
  }

  /** The message of the first rule that matches, else the plain failure. */
  function FirstMatch(rules: seq<Rule>, c: string): string {
    if rules == [] then FAILED
    else if Matches(rules[0], c) then rules[0].message
    else FirstMatch(rules[1..], c)
  }

  /** The first matching rule is the one that decides. */
  lemma {:induction false} FirstMatchWins(rules: seq<Rule>, c: string, k: nat)
    requires k < |rules| && Matches(rules[k], c)
    requires forall j :: 0 <= j < k ==> !Matches(rules[j], c)
    ensures FirstMatch(rules, c) == rules[k].message
  {
    if k > 0 {
      assert !Matches(rules[0], c);
      FirstMatchWins(rules[1..], c, k - 1);
    }
  }

  /** No rule matches: the plain failure. */
  lemma {:induction false} NoMatchFails(rules: seq<Rule>, c: string)
    requires forall j :: 0 <= j < |rules| ==> !Matches(rules[j], c)
    ensures FirstMatch(rules, c) == FAILED
  {
    if rules != [] {
      assert !Matches(rules[0], c);
      NoMatchFails(rules[1..], c);
    }
  }

  lemma OneNeedle(n: string, m: string, c: string)
    ensures Matches(Rule([n], m), c) <==> Contains(c, n)
  {
    if Contains(c, n) {
      assert [n][0] == n;
    }
  }

  lemma TwoNeedles(a: string, b: string, m: string, c: string)
    ensures Matches(Rule([a, b], m), c) <==> Contains(c, a) || Contains(c, b)
  {
    if Contains(c, a) {
      assert [a, b][0] == a;
    } else if Contains(c, b) {
      assert [a, b][1] == b;
    }
  }

  /** `mapError` on a present code is the first matching row of the table. */
  lemma MapErrorIsFirstMatch(c: string)
    requires c != ""
    ensures MapError(Some(c)) == FirstMatch(RULES, c)
  {
    forall j | 0 <= j < |RULES|
      ensures Matches(RULES[j], c) <==> (if j < 7 then Contains(c, RULES[j].needles[0])
                                        else Contains(c, "wrong-password") || Contains(c, "user-not-found"))
    {
      if j < 7 {
        OneNeedle(RULES[j].needles[0], RULES[j].message, c);
      } else {
        TwoNeedles("wrong-password", "user-not-found", BAD_CREDENTIALS, c);
      }
    }
    if Contains(c, "invalid-api-key") { FirstMatchWins(RULES, c, 0); }
    else if Contains(c, "unauthorized-domain") { FirstMatchWins(RULES, c, 1); }
    else if Contains(c, "operation-not-allowed") { FirstMatchWins(RULES, c, 2); }
    else if Contains(c, "popup-blocked") { FirstMatchWins(RULES, c, 3); }
    else if Contains(c, "popup-closed-by-user") { FirstMatchWins(RULES, c, 4); }
    else if Contains(c, "email-already-in-use") { FirstMatchWins(RULES, c, 5); }
    else if Contains(c, "weak-password") { FirstMatchWins(RULES, c, 6); }
    else if Contains(c, "wrong-password") || Contains(c, "user-not-found") { FirstMatchWins(RULES, c, 7); }
    else { NoMatchFails(RULES, c); }
  }

  /** A code naming a wrong password or an unknown user, and none of the
      codes tested before them, gives the bad-credentials message. */
  lemma BadCredentials(c: string)
    requires Contains(c, "wrong-password") || Contains(c, "user-not-found")
    requires forall j :: 0 <= j < 7 ==> !Contains(c, RULES[j].needles[0])
    ensures MapError(Some(c)) == BAD_CREDENTIALS
  {
    assert !Contains(c, RULES[0].needles[0]) && !Contains(c, RULES[1].needles[0]);
    assert !Contains(c, RULES[2].needles[0]) && !Contains(c, RULES[3].needles[0]);
    assert !Contains(c, RULES[4].needles[0]) && !Contains(c, RULES[5].needles[0]);
    assert !Contains(c, RULES[6].needles[0]);
  }

  /** The message the sign-on form shows when an e-mail sign-in or sign-up
      fails; a missing code reads as "". */
  function SubmitMessage(code: Option<string>): (r: string)
    ensures r == FAILED || r == BAD_CREDENTIALS || r == EMAIL_IN_USE
    ensures r == BAD_CREDENTIALS <==> code.Some? && (Contains(code.value, "wrong-password") || Contains(code.value, "user-not-found"))
    ensures r == EMAIL_IN_USE <==>
              (code.Some? && Contains(code.value, "email-already-in-use")
               && !(Contains(code.value, "wrong-password") || Contains(code.value, "user-not-found")))
    ensures r == FAILED <==>
              (code.None? || !(Contains(code.value, "wrong-password") || Contains(code.value, "user-not-found")
                               || Contains(code.value, "email-already-in-use")))
  {
    var c := code.GetOr("");
    if Contains(c, "wrong-password") || Contains(c, "user-not-found") then BAD_CREDENTIALS
    else if Contains(c, "email-already-in-use") then EMAIL_IN_USE
    else FAILED
  }

  /** An error as the sign-on form catches it: its `code` and `message`. */
  datatype AuthError = AuthError(code: Option<string>, message: string)

  /** What `signinWithEmail`, `signupWithEmail` and the failing path of
      `signinWithGoogle` throw for a provider error with code `code`:
      `new Error(mapError(code))`, whose message is never empty and which
      carries no `code` of its own. */
  function Rethrown(code: Option<string>): (r: AuthError)
    ensures r.code.None?
    ensures r.message in MESSAGES && r.message != ""
    ensures code.None? || code == Some("") ==> r.message == FAILED
  {
    AuthError(None, MapError(code))
  }

  /** In the assembled program the form's chain only ever sees an error
      without a code, so whatever the provider reported, an e-mail sign-in
      or sign-up failure shows "Authentication failed.". The bad-credential
      and e-mail-in-use messages of the form are out of reach. */
  lemma {:induction false} FormMessageOfRethrown(code: Option<string>)
    ensures SubmitMessage(Rethrown(code).code) == FAILED
    ensures SubmitMessage(Rethrown(code).code) != BAD_CREDENTIALS
    ensures SubmitMessage(Rethrown(code).code) != EMAIL_IN_USE
  {
    assert !Contains("", "wrong-password") && !Contains("", "user-not-found");
    assert !Contains("", "email-already-in-use");
  }

  /** The form's chain agrees with `mapError` on every code that none of the
      provider-setup and weak-password tests catch, except a code that both
      names an e-mail in use and bad credentials: the form tests the
      credentials first, `mapError` the e-mail. */
  lemma SubmitMessageAgrees(c: string)
    requires forall j :: 0 <= j < 5 ==> !Contains(c, RULES[j].needles[0])
    requires !Contains(c, "weak-password")
    requires !(Contains(c, "email-already-in-use") && (Contains(c, "wrong-password") || Contains(c, "user-not-found")))
    ensures SubmitMessage(Some(c)) == MapError(Some(c))
  {
    assert !Contains(c, RULES[0].needles[0]) && !Contains(c, RULES[1].needles[0]);
    assert !Contains(c, RULES[2].needles[0]) && !Contains(c, RULES[3].needles[0]);
    assert !Contains(c, RULES[4].needles[0]);
    if c == "" {
      assert !Contains(c, "wrong-password") && !Contains(c, "user-not-found");
      assert !Contains(c, "email-already-in-use");
    }
  }

  /** Where the two chains part, taken on their own: a code naming both an
      e-mail in use and bad credentials. The form never receives such a code
      from the helpers (`FormMessageOfRethrown`). */
  lemma SubmitMessageDiffers(c: string)
    requires forall j :: 0 <= j < 5 ==> !Contains(c, RULES[j].needles[0])
    requires Contains(c, "email-already-in-use") && Contains(c, "wrong-password")
    ensures MapError(Some(c)) == EMAIL_IN_USE && SubmitMessage(Some(c)) == BAD_CREDENTIALS
  {
    assert !Contains(c, RULES[0].needles[0]) && !Contains(c, RULES[1].needles[0]);
    assert !Contains(c, RULES[2].needles[0]) && !Contains(c, RULES[3].needles[0]);
    assert !Contains(c, RULES[4].needles[0]);
  }
}
