/** `smilesProblem`: the smiling glyphs `:-)` and `(-:` in a text. The source
    hands each pattern to `String.prototype.match` as a string, which makes it
    a RegExp without the global flag: the call yields `null` or a one-element
    array, so the code counts which glyphs are present, not how often. */
module Smiles {
  import opened Js

  const Smile: string := ":-)"
  const ReverseSmile: string := "(-:"

  /** `p` occurs in `t` starting at index `i`. */
  predicate OccursAt(t: string, p: string, i: nat)
  {
    i + |p| <= |t| && t[i..i + |p|] == p
  }

  predicate Contains(t: string, p: string)
  {
    exists i: nat :: i <= |t| && OccursAt(t, p, i)
  }

  /** The index a non-global match reports: the first occurrence of `p` in
      `t` at or after `from`, or `null`. */
  function FirstMatch(t: string, p: string, from: nat): (r: Option<nat>)
    ensures r.Some? ==> from <= r.value && OccursAt(t, p, r.value)
    ensures r.Some? ==> forall i: nat :: from <= i < r.value ==> !OccursAt(t, p, i)
    ensures r.None? ==> forall i: nat :: from <= i ==> !OccursAt(t, p, i)
    decreases |t| - from
  {
    if from + |p| > |t| then None
    else if OccursAt(t, p, from) then Some(from)
    else FirstMatch(t, p, from + 1)
  }

  /** `(text.match(p) || [])`: the one-element match array, or the empty array for `null`. */
  function MatchOrEmpty(t: string, p: string): (a: seq<string>)
    ensures |a| == (if Contains(t, p) then 1 else 0)
  {
    if FirstMatch(t, p, 0).Some? then [p] else []
  }

  /** The exercise as written: a TypeError for a non-string, else the number
      of the two glyphs present in the text, 0, 1 or 2. */
  function SmilesProblem(v: JsValue): (r: Result<nat>)
    ensures !v.Str? ==> r == Err(TypeError)
    ensures v.Str? ==> r.Ok? && r.value <= 2
    ensures v.Str? ==> (r.value ==
      (if Contains(v.text, Smile) then 1 else 0) + (if Contains(v.text, ReverseSmile) then 1 else 0))
  {
    if !v.Str? then Err(TypeError)
    else Ok(|MatchOrEmpty(v.text, Smile)| + |MatchOrEmpty(v.text, ReverseSmile)|)
  }

  /** The number of indices from `from` on where `p` starts in `t`. */
  function Occurrences(t: string, p: string, from: nat): nat
    decreases |t| - from
  {
    if from + |p| > |t| then 0
    else if OccursAt(t, p, from) then 1 + Occurrences(t, p, from + 1)
    else Occurrences(t, p, from + 1)
  }

  /** The count is positive exactly when `p` occurs at or after `from`. */
  lemma {:induction false} OccurrencesPositive(t: string, p: string, from: nat)
    ensures Occurrences(t, p, from) > 0 <==> exists i: nat :: from <= i && OccursAt(t, p, i)
    decreases |t| - from
  {
    if from + |p| <= |t| {
      OccurrencesPositive(t, p, from + 1);
      if !OccursAt(t, p, from) {
        forall i: nat | OccursAt(t, p, i) && from <= i
          ensures from + 1 <= i
        {
        }
      }
    }
  }

  /** A glyph is present exactly when its count is positive. */
  lemma ContainsIffCounted(t: string, p: string)
    ensures Contains(t, p) <==> Occurrences(t, p, 0) > 0
  {
    OccurrencesPositive(t, p, 0);
  }

  /** The indices from `from` on where `p` starts in `t`. */
  function Starts(t: string, p: string, from: nat): set<nat>
  {
    set i: nat | from <= i <= |t| && OccursAt(t, p, i)
  }

  /** `Occurrences` counts exactly the starting indices of `p`. */
  lemma {:induction false} OccurrencesAreStarts(t: string, p: string, from: nat)
    ensures Occurrences(t, p, from) == |Starts(t, p, from)|
    decreases |t| - from
  {
    if from + |p| > |t| {
      assert Starts(t, p, from) == {};
    } else {
      OccurrencesAreStarts(t, p, from + 1);
      if OccursAt(t, p, from) {
        assert Starts(t, p, from) == {from} + Starts(t, p, from + 1);
      } else {
        assert Starts(t, p, from) == Starts(t, p, from + 1);
      }
    }
  }

  /** The count the function's documentation promises: every occurrence of
      each glyph. (Neither glyph can overlap itself, so this is also what a
      global match would count.) */
  function SmileCount(v: JsValue): (r: Result<nat>)
    ensures !v.Str? ==> r == Err(TypeError)
    ensures v.Str? ==> r == Ok(|Starts(v.text, Smile, 0)| + |Starts(v.text, ReverseSmile, 0)|)
  {
    if !v.Str? then Err(TypeError)
    else
      OccurrencesAreStarts(v.text, Smile, 0);
      OccurrencesAreStarts(v.text, ReverseSmile, 0);
      Ok(Occurrences(v.text, Smile, 0) + Occurrences(v.text, ReverseSmile, 0))
  }

  /** The corrected count is zero exactly when neither glyph occurs. */
  lemma SmileCountZero(t: string)
    ensures SmileCount(Str(t)).value == 0 <==> !Contains(t, Smile) && !Contains(t, ReverseSmile)
  {
    ContainsIffCounted(t, Smile);
    ContainsIffCounted(t, ReverseSmile);
  }

  /** The code as written never reports more than the intended count, and
      they agree when each glyph occurs at most once. */
  lemma PresenceBelowCount(t: string)
    ensures SmilesProblem(Str(t)).value <= SmileCount(Str(t)).value
    ensures Occurrences(t, Smile, 0) <= 1 && Occurrences(t, ReverseSmile, 0) <= 1 ==>
              SmilesProblem(Str(t)) == SmileCount(Str(t))
  {
    ContainsIffCounted(t, Smile);
    ContainsIffCounted(t, ReverseSmile);
  }

  /** A glyph whose first character does not appear in `t` from `from` on does not occur there. */
  lemma AbsentFirstChar(t: string, p: string, from: nat)
    requires |p| > 0
    requires forall i :: from <= i < |t| ==> t[i] != p[0]
    ensures Occurrences(t, p, from) == 0
  {
    OccurrencesPositive(t, p, from);
    forall i: nat | from <= i && i + |p| <= |t|
      ensures !OccursAt(t, p, i)
    {
      assert t[i..i + |p|][0] != p[0];
    }
  }

  /** The smile occurs twice in ":-) :-)", at indices 0 and 4. */
  lemma SmileTwice()
    ensures OccursAt(":-) :-)", Smile, 0) && OccursAt(":-) :-)", Smile, 4)
    ensures Occurrences(":-) :-)", Smile, 0) == 2
  {
    var t := ":-) :-)";
    assert OccursAt(t, Smile, 0) && OccursAt(t, Smile, 4);
    assert Occurrences(t, Smile, 5) == 0;
    assert Occurrences(t, Smile, 4) == 1;
    assert t[1..4][0] != Smile[0] && t[2..5][0] != Smile[0] && t[3..6][0] != Smile[0];
    assert Occurrences(t, Smile, 1) == 1;
  }

  /** The reversed smile does not occur in ":-) :-)". */
  lemma ReverseSmileAbsent()
    ensures Occurrences(":-) :-)", ReverseSmile, 0) == 0
  {
    AbsentFirstChar(":-) :-)", ReverseSmile, 0);
  }

  /** A text with the smile twice: the code reports 1 where 2 is intended. */
  lemma TwoSmilesExample()
    ensures SmilesProblem(Str(":-) :-)")) == Ok(1)
    ensures SmileCount(Str(":-) :-)")) == Ok(2)
  {
    TwoSmilesPresent();
    TwoSmilesCounted();
  }

  /** The code as written sees the smile, so it reports 1. */
  lemma TwoSmilesPresent()
    ensures SmilesProblem(Str(":-) :-)")) == Ok(1)
  {
    var t := ":-) :-)";
    SmileTwice();
    ReverseSmileAbsent();
    OccurrencesPositive(t, ReverseSmile, 0);
    assert Contains(t, Smile);
  }

  /** The corrected count sees both smiles. */
  lemma TwoSmilesCounted()
    ensures SmileCount(Str(":-) :-)")) == Ok(2)
  {
    SmileTwice();
    ReverseSmileAbsent();
    CountOfOccurrences(":-) :-)", 2, 0);
  }

  /** The corrected count is the sum of the two glyphs' occurrence counts. */
  lemma CountOfOccurrences(t: string, a: nat, b: nat)
    requires Occurrences(t, Smile, 0) == a && Occurrences(t, ReverseSmile, 0) == b
    ensures SmileCount(Str(t)) == Ok(a + b)
  {
  }

  /** "(-:" has one glyph and the empty text none. */
  lemma SmilesExamples()
    ensures SmilesProblem(Str("(-:")) == Ok(1)
    ensures SmilesProblem(Str("")) == Ok(0)
  {
    assert OccursAt("(-:", ReverseSmile, 0);
    assert !OccursAt("(-:", Smile, 0);
  }
}
