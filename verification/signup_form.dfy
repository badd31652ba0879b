/** The sign-up page's password-strength meter and its submit check. */
module SignupForm {
  import opened Text

  /** `/[0-9]/` finds a match. */
  predicate HasDigit(p: string) {
    exists i :: 0 <= i < |p| && IsDigit(p[i])
  }

  predicate IsAsciiLetter(c: char) {
    ('A' <= c <= 'Z') || ('a' <= c <= 'z')
  }

  /** `/[^A-Za-z0-9]/` finds a match: some character is not an ASCII letter or digit. */
  predicate HasSymbol(p: string) {
    exists i :: 0 <= i < |p| && !IsAsciiLetter(p[i]) && !IsDigit(p[i])
  }

  function Point(b: bool): nat {
    if b then 1 else 0
  }

  /**
   * The strength score: 0 for an empty password; otherwise one point each
   * for more than 5 characters, more than 8, a digit, and a symbol.
   */
  function Strength(p: string): (score: nat)
    ensures score <= 4
    ensures p == "" ==> score == 0
    ensures score == 4 <==> |p| > 8 && HasDigit(p) && HasSymbol(p)
    ensures score == 0 <==> |p| <= 5 && !HasDigit(p) && !HasSymbol(p)
  {
    if p == [] then 0
    else Point(|p| > 5) + Point(|p| > 8) + Point(HasDigit(p)) + Point(HasSymbol(p))
  }

  /** Typing one more character never lowers the score. */
  lemma StrengthMonotone(p: string, c: char)
    ensures Strength(p + [c]) >= Strength(p)
  {
    var q := p + [c];
    if HasDigit(p) {
      var i :| 0 <= i < |p| && IsDigit(p[i]);
      assert q[i] == p[i];
    }
    if HasSymbol(p) {
      var i :| 0 <= i < |p| && !IsAsciiLetter(p[i]) && !IsDigit(p[i]);
      assert q[i] == p[i];
    }
  }

  /** The demo accounts' password `Student123!` rates Strong. */
  lemma DemoPasswordIsStrong()
    ensures Strength("Student123!") == 4
    ensures StrengthLabel(Strength("Student123!")) == "Strong"
  {
    var p := "Student123!";
    assert IsDigit(p[7]);
    assert !IsAsciiLetter(p[10]) && !IsDigit(p[10]);
  }

  /** `getStrengthLabel`. */
  function StrengthLabel(score: nat): (text: string)
    ensures text == "" <==> score == 0
    ensures text == "Weak" <==> score == 1
    ensures text == "Medium" <==> score == 2 || score == 3
    ensures text == "Strong" <==> score >= 4
  {
    if score == 0 then "" else if score < 2 then "Weak" else if score < 4 then "Medium" else "Strong"
  }

  /** `getStrengthColor`: the bar's colour. */
  function StrengthColor(score: nat): string {
    if score == 0 then "bg-gray-600" else if score < 2 then "bg-red-500" else if score < 4 then "bg-yellow-500" else "bg-green-500"
  }

  /** The label's text colour: it has no band of its own for 0, which shares the red of Weak. */
  function LabelTextColor(score: nat): string {
    if score < 2 then "text-red-400" else if score < 4 then "text-yellow-400" else "text-green-400"
  }

  /** The bar colour and the label change at the same scores. */
  lemma ColorFollowsLabel(a: nat, b: nat)
    ensures StrengthLabel(a) == StrengthLabel(b) <==> StrengthColor(a) == StrengthColor(b)
  {
  }

  /** The label's text colour agrees with the bar except at 0. */
  lemma TextColorFollowsLabel(a: nat, b: nat)
    requires a > 0 && b > 0
    ensures StrengthLabel(a) == StrengthLabel(b) <==> LabelTextColor(a) == LabelTextColor(b)
  {
  }

  /** What pressing "sign up" does: warn about a mismatch, or go on. */
  datatype Submit = PasswordsDiffer | Proceed

  /** `handleSubmit`: an alert and nothing else unless the two password fields are equal. */
  function HandleSubmit(password: string, confirm: string): (r: Submit)
    ensures r == Proceed <==> password == confirm
  {
    if password != confirm then PasswordsDiffer else Proceed
  }
}
