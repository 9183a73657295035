/** The strength heuristic of calculateStrength: a pure function of the password. */
module Scoring {

  const MaxStrength: nat := 4

  predicate IsLower(c: char) { 'a' <= c <= 'z' }
  predicate IsUpper(c: char) { 'A' <= c <= 'Z' }
  predicate IsDigit(c: char) { '0' <= c <= '9' }

  /** The regular expressions /[a-z]/, /[A-Z]/, /[0-9]/ and /[^a-zA-Z0-9]/. */
  predicate HasLower(s: string) { exists i :: 0 <= i < |s| && IsLower(s[i]) }
  predicate HasUpper(s: string) { exists i :: 0 <= i < |s| && IsUpper(s[i]) }
  predicate HasDigit(s: string) { exists i :: 0 <= i < |s| && IsDigit(s[i]) }
  predicate HasOther(s: string) {
    exists i :: 0 <= i < |s| && !IsLower(s[i]) && !IsUpper(s[i]) && !IsDigit(s[i])
  }

  function Point(b: bool): nat { if b then 1 else 0 }

  /** One point per length tier reached (8, 12, 16), one per character class present,
      the total capped at MaxStrength. The level is 0 exactly for the empty password,
      and every password of 16 characters or more reaches the maximum. */
  function CalculateStrength(password: string): (r: nat)
    ensures r <= MaxStrength
    ensures r == 0 <==> password == []
    ensures |password| >= 16 ==> r == MaxStrength
  {
    var n := |password|;
    var strength :=
      Point(n >= 8) + Point(n >= 12) + Point(n >= 16) +
      Point(HasLower(password)) + Point(HasUpper(password)) +
      Point(HasDigit(password)) + Point(HasOther(password));
    // A non-empty password has a first character, and that character has some class.
    assert password != [] ==>
      IsLower(password[0]) || IsUpper(password[0]) || IsDigit(password[0]) ||
      (!IsLower(password[0]) && !IsUpper(password[0]) && !IsDigit(password[0]));
    if strength < MaxStrength then strength else MaxStrength
  }

  /** A twelve-character password of upper, lower and digit characters: 2 length points
      and 3 class points, capped at 4. */
  lemma ExampleScore()
    ensures CalculateStrength("K7dpLQ93vxTz") == 4
  {
    var p := "K7dpLQ93vxTz";
    assert IsUpper(p[0]) && IsDigit(p[1]) && IsLower(p[2]);
  }

  /** A non-empty lowercase-only password shorter than 8 gets only the lowercase point. */
  lemma LowercaseShortScore(password: string)
    requires 0 < |password| < 8
    requires forall i :: 0 <= i < |password| ==> IsLower(password[i])
    ensures CalculateStrength(password) == 1
  {
  }

  /** Appending characters never lowers the level: length tiers and classes only grow. */
  lemma AppendMonotone(a: string, b: string)
    ensures CalculateStrength(a) <= CalculateStrength(a + b)
  {
    var ab := a + b;
    if HasLower(a) { var i :| 0 <= i < |a| && IsLower(a[i]); assert ab[i] == a[i]; }
    if HasUpper(a) { var i :| 0 <= i < |a| && IsUpper(a[i]); assert ab[i] == a[i]; }
    if HasDigit(a) { var i :| 0 <= i < |a| && IsDigit(a[i]); assert ab[i] == a[i]; }
    if HasOther(a) {
      var i :| 0 <= i < |a| && !IsLower(a[i]) && !IsUpper(a[i]) && !IsDigit(a[i]);
      assert ab[i] == a[i];
    }
  }

  /** A password of at least 12 characters scores at least 3: two length points and
      the class of its first character. */
  lemma TwelveScoresThree(password: string)
    requires |password| >= 12
    ensures CalculateStrength(password) >= 3
  {
    var c := password[0];
    if IsLower(c) { assert HasLower(password); }
    else if IsUpper(c) { assert HasUpper(password); }
    else if IsDigit(c) { assert HasDigit(password); }
    else { assert HasOther(password); }
  }
}
