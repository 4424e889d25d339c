/** `phoneProblem`: does a string have the shape `8-800-xxx-xx-xx`, x a digit? */
module Phone {
  import opened Js
  import opened Pattern

  /** `^8-800-\d{3}-\d{2}-\d{2}$` as a token sequence. */
  function PhonePattern(): seq<Token>
  {
    Literal("8-800-") + Repeat(Digit, 3) + [Lit('-')] + Repeat(Digit, 2) + [Lit('-')] + Repeat(Digit, 2)
  }

  /** The shape position by position: fifteen characters, the prefix
      `8-800-`, dashes at positions 9 and 12, ASCII digits everywhere else. */
  predicate IsPhoneShape(s: string)
  {
    |s| == 15 && s[..6] == "8-800-" && s[9] == '-' && s[12] == '-' &&
    IsDigit(s[6]) && IsDigit(s[7]) && IsDigit(s[8]) &&
    IsDigit(s[10]) && IsDigit(s[11]) &&
    IsDigit(s[13]) && IsDigit(s[14])
  }

  /** The exercise: a TypeError for a non-string, else whether the pattern
      matches, which is exactly when the string has the phone shape. */
  function PhoneProblem(v: JsValue): (r: Result<bool>)
    ensures !v.Str? ==> r == Err(TypeError)
    ensures v.Str? ==> r == Ok(IsPhoneShape(v.text))
  {
    if !v.Str? then Err(TypeError)
    else
      PatternIsShape(v.text);
      Ok(Matches(PhonePattern(), v.text))
  }

  lemma PatternIsShape(s: string)
    ensures Matches(PhonePattern(), s) <==> IsPhoneShape(s)
  {
    var p := PhonePattern();
    MatchesIff(p, s);
    assert |p| == 15;
    assert forall i :: 0 <= i < 6 ==> p[i] == Lit("8-800-"[i]);
    assert p[6] == Digit && p[7] == Digit && p[8] == Digit && p[9] == Lit('-');
    assert p[10] == Digit && p[11] == Digit && p[12] == Lit('-');
    assert p[13] == Digit && p[14] == Digit;
    if IsPhoneShape(s) {
      assert forall i :: 0 <= i < 6 ==> s[i] == s[..6][i];
    }
    if |s| == 15 && forall i :: 0 <= i < |s| ==> Accepts(p[i], s[i]) {
      assert s[..6] == "8-800-";
    }
  }

  /** "8-800-555-35-35" is a phone number; "8-800-555-3-35" is not. */
  lemma PhoneExamples()
    ensures PhoneProblem(Str("8-800-555-35-35")) == Ok(true)
    ensures PhoneProblem(Str("8-800-555-3-35")) == Ok(false)
    ensures PhoneProblem(Number(88005553535.0)) == Err(TypeError)
  {
    assert "8-800-555-35-35"[..6] == "8-800-";
  }
}
