/** `centuryByYearProblem`: the century a year falls in, `Math.ceil(year / 100)`. */
module Century {
  import opened Js

  /** `Math.ceil` on an exact number: the least integer not below `x`. */
  function Ceil(x: real): (c: int)
    ensures c as real - 1.0 < x <= c as real
  {
    if x.Floor as real == x then x.Floor else x.Floor + 1
  }

  /** The exercise: a TypeError for a non-number, a RangeError for a negative
      year, else the century C with 100 * (C - 1) < year <= 100 * C (so year 0
      gives century 0). */
  function CenturyByYear(v: JsValue): (r: Result<int>)
    ensures !v.Number? ==> r == Err(TypeError)
    ensures v.Number? && v.value < 0.0 ==> r == Err(RangeError)
    ensures v.Number? && v.value >= 0.0 ==>
      r.Ok? && r.value >= 0 &&
      100.0 * (r.value as real - 1.0) < v.value <= 100.0 * r.value as real
  {
    if !v.Number? then Err(TypeError)
    else if v.value < 0.0 then Err(RangeError)
    else Ok(Ceil(v.value / 100.0))
  }

  /** For an integer year the century is the only C with
      100 * (C - 1) < year <= 100 * C. */
  lemma CenturyOfYear(year: int, c: int)
    requires year >= 0
    requires 100 * (c - 1) < year <= 100 * c
    ensures CenturyByYear(Number(year as real)) == Ok(c)
  {
    var r := CenturyByYear(Number(year as real));
    assert 100 * (r.value - 1) < year <= 100 * r.value;
  }

  /** Years 100, 101 and 2000 are in centuries 1, 2 and 20; year -1 is refused. */
  lemma CenturyExamples()
    ensures CenturyByYear(Number(100.0)) == Ok(1)
    ensures CenturyByYear(Number(101.0)) == Ok(2)
    ensures CenturyByYear(Number(2000.0)) == Ok(20)
    ensures CenturyByYear(Number(-1.0)) == Err(RangeError)
    ensures CenturyByYear(Str("1999")) == Err(TypeError)
  {
    CenturyOfYear(100, 1);
    CenturyOfYear(101, 2);
    CenturyOfYear(2000, 20);
  }
}
