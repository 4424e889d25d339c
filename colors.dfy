/** `colorsProblem`: a colour in HEX notation, `#` with 3 or 6 hexadecimal
    digits, written as an RGB triple `(r, g, b)`. */
module Colors {
  import opened Js
  import opened Pattern

  /** The value of a hexadecimal digit, in either case. */
  function HexDigitValue(c: char): (d: nat)
    requires IsHexChar(c)
    ensures d < 16
  {
    if IsDigit(c) then DigitValue(c)
    else if 'A' <= c <= 'F' then c as int - 'A' as int + 10
    else c as int - 'a' as int + 10
  }

  predicate AllHex(s: string)
  {
    forall i :: 0 <= i < |s| ==> IsHexChar(s[i])
  }

  /** `parseInt(s, 16)` on a non-empty string of hexadecimal digits. */
  function HexValue(s: string): (n: nat)
    requires AllHex(s)
    ensures |s| == 1 ==> n == HexDigitValue(s[0])
    ensures |s| == 2 ==> n == 16 * HexDigitValue(s[0]) + HexDigitValue(s[1])
    ensures |s| <= 2 ==> n < 256
  {
    if s == [] then 0
    else
      assert |s| == 2 ==> s[..|s| - 1] == [s[0]];
      HexValue(s[..|s| - 1]) * 16 + HexDigitValue(s[|s| - 1])
  }

  /** `^#[0-9A-Fa-f]{3}$` and `^#[0-9A-Fa-f]{6}$`, the two alternatives of the colour format. */
  function ShortForm(): seq<Token> { [Lit('#')] + Repeat(HexDigit, 3) }
  function LongForm(): seq<Token> { [Lit('#')] + Repeat(HexDigit, 6) }

  /** The colour format accepts exactly `#` followed by 3 or 6 hexadecimal
      digits, in either case. */
  function IsHexColor(s: string): (b: bool)
    ensures b <==> (|s| == 4 || |s| == 7) && s[0] == '#' &&
                   forall i :: 1 <= i < |s| ==> IsHexChar(s[i])
  {
    MatchesIff(ShortForm(), s);
    MatchesIff(LongForm(), s);
    Matches(ShortForm(), s) || Matches(LongForm(), s)
  }

  function Min(a: int, b: int): int { if a < b then a else b }

  /** The numbers the loop pushes from index `j` on: the value of
      `s.substring(j, j + 2)`, then of the slice two characters further, up
      to the end of `s` (the last slice is one character long when it runs
      past the end). */
  function Slices(s: string, j: nat): seq<nat>
    requires j >= 1 && forall i :: 1 <= i < |s| ==> IsHexChar(s[i])
    decreases |s| - j
  {
    if j >= |s| then []
    else [HexValue(s[j..Min(j + 2, |s|)])] + Slices(s, j + 2)
  }

  /** How `${color[k]}` writes an entry: its decimal text, or `undefined`
      past the end of the array. */
  function Channel(color: seq<nat>, k: nat): string
  {
    if k < |color| then DecimalString(color[k]) else "undefined"
  }

  /** The template literal `(${color[0]}, ${color[1]}, ${color[2]})`. */
  function RgbText(color: seq<nat>): string
  {
    "(" + Channel(color, 0) + ", " + Channel(color, 1) + ", " + Channel(color, 2) + ")"
  }

  /** The text of a two-element array: the third entry is `undefined`. */
  lemma RgbTextOfPair(x: nat, y: nat)
    ensures RgbText([x, y]) == "(" + DecimalString(x) + ", " + DecimalString(y) + ", undefined)"
  {
  }

  /** The text of a three-element array. */
  lemma RgbTextOfTriple(x: nat, y: nat, z: nat)
    ensures RgbText([x, y, z]) ==
      "(" + DecimalString(x) + ", " + DecimalString(y) + ", " + DecimalString(z) + ")"
  {
  }

  /** The exercise as written: a TypeError for a non-string, a RangeError
      for a string outside the colour format, else the text of the numbers
      the slicing loop collects. */
  method ColorsProblem(v: JsValue) returns (r: Result<string>)
    ensures !v.Str? ==> r == Err(TypeError)
    ensures v.Str? && !IsHexColor(v.text) ==> r == Err(RangeError)
    ensures v.Str? && IsHexColor(v.text) ==> r == Ok(RgbText(Slices(v.text, 1)))
  {
    if !v.Str? {
      return Err(TypeError);
    }
    var hexColor := v.text;
    if !IsHexColor(hexColor) {
      return Err(RangeError);
    }
    var color: seq<nat> := [];
    var j := 1;
    while j < |hexColor|
      invariant 1 <= j <= |hexColor| + 1
      invariant color + Slices(hexColor, j) == Slices(hexColor, 1)
    {
      var value := HexValue(hexColor[j..Min(j + 2, |hexColor|)]);
      assert Slices(hexColor, j) == [value] + Slices(hexColor, j + 2);
      assert (color + [value]) + Slices(hexColor, j + 2) == color + ([value] + Slices(hexColor, j + 2));
      color := color + [value];
      j := j + 2;
    }
    return Ok(RgbText(color));
  }

  /** A 6-digit colour gives exactly three channels, the values of the digit
      pairs at [1..3), [3..5) and [5..7), each in [0, 255]. */
  lemma LongColorChannels(s: string)
    requires IsHexColor(s) && |s| == 7
    ensures Slices(s, 1) == [HexValue(s[1..3]), HexValue(s[3..5]), HexValue(s[5..7])]
    ensures forall k :: 0 <= k < 3 ==> Slices(s, 1)[k] < 256
  {
    assert Slices(s, 7) == [];
    assert Slices(s, 5) == [HexValue(s[5..7])];
    assert Slices(s, 3) == [HexValue(s[3..5]), HexValue(s[5..7])];
  }

  /** A 3-digit colour gives only two numbers: the pair at [1..3) and the
      single last digit, so the blue channel is written `undefined`. */
  lemma ShortColorChannels(s: string)
    requires IsHexColor(s) && |s| == 4
    ensures Slices(s, 1) == [HexValue(s[1..3]), HexDigitValue(s[3])]
    ensures RgbText(Slices(s, 1)) ==
      "(" + DecimalString(HexValue(s[1..3])) + ", " + DecimalString(HexDigitValue(s[3])) + ", undefined)"
  {
    assert Slices(s, 5) == [];
    assert Slices(s, 3) == [HexValue(s[3..4])];
    RgbTextOfPair(HexValue(s[1..3]), HexDigitValue(s[3]));
  }

  lemma HexFF()
    ensures HexValue("FF") == 255
  {
    assert "FF"[..1] == "F";
  }

  lemma Decimal255()
    ensures DecimalString(255) == "255" && DecimalString(15) == "15"
  {
    assert DecimalString(25) == "25";
  }

  lemma ShortWhiteSlices()
    ensures IsHexColor("#FFF") && Slices("#FFF", 1) == [255, 15]
  {
    var s := "#FFF";
    assert IsHexColor(s);
    ShortColorChannels(s);
    assert s[1..3] == "FF";
    HexFF();
  }

  /** `#FFF` comes out as `(255, 15, undefined)`. */
  lemma ShortColorAsWritten()
    ensures IsHexColor("#FFF")
    ensures RgbText(Slices("#FFF", 1)) == "(255, 15, undefined)"
  {
    ShortWhiteSlices();
    Decimal255();
    RgbTextOfPair(255, 15);
  }

  /** The example colours are in the format. */
  lemma LiteralIsHexColor(s: string)
    requires s in {"#FFFFFF", "#000000", "#FFF", "#000"}
    ensures IsHexColor(s)
  {
  }

  lemma WhiteSlices()
    ensures IsHexColor("#FFFFFF") && Slices("#FFFFFF", 1) == [255, 255, 255]
  {
    var s := "#FFFFFF";
    LiteralIsHexColor(s);
    LongColorChannels(s);
    assert s[1..3] == s[3..5] == s[5..7] == "FF";
    HexFF();
  }

  /** `#FFFFFF` comes out as `(255, 255, 255)`. */
  lemma WhiteExample()
    ensures IsHexColor("#FFFFFF")
    ensures RgbText(Slices("#FFFFFF", 1)) == "(255, 255, 255)"
  {
    WhiteSlices();
    Decimal255();
    RgbTextOfTriple(255, 255, 255);
  }

  lemma BlackSlices()
    ensures IsHexColor("#000000") && Slices("#000000", 1) == [0, 0, 0]
  {
    var t := "#000000";
    LiteralIsHexColor(t);
    LongColorChannels(t);
    assert t[1..3] == t[3..5] == t[5..7] == "00";
    assert HexValue("00") == 0 by {
      assert "00"[..1] == "0";
    }
  }

  /** `#000000` comes out as `(0, 0, 0)`. */
  lemma BlackExample()
    ensures IsHexColor("#000000")
    ensures RgbText(Slices("#000000", 1)) == "(0, 0, 0)"
  {
    BlackSlices();
    assert DecimalString(0) == "0";
    RgbTextOfTriple(0, 0, 0);
  }

  /** The hexadecimal digit of a value below 16 (upper case). */
  function HexChar(d: nat): (c: char)
    requires d < 16
    ensures IsHexChar(c) && HexDigitValue(c) == d
  {
    if d < 10 then DigitChar(d) else ('A' as int + d - 10) as char
  }

  /** A channel value as two hexadecimal digits. */
  function HexPair(b: nat): (p: string)
    requires b < 256
    ensures |p| == 2 && AllHex(p) && HexValue(p) == b
  {
    var p := [HexChar(b / 16), HexChar(b % 16)];
    assert p[..1] == [HexChar(b / 16)];
    p
  }

  /** The 6-digit colour of an RGB triple. */
  function HexColor(r: nat, g: nat, b: nat): string
    requires r < 256 && g < 256 && b < 256
  {
    "#" + HexPair(r) + HexPair(g) + HexPair(b)
  }

  /** Every triple of channels round-trips: its 6-digit colour is in the
      format and decodes to the same three numbers. */
  lemma HexColorRoundTrip(r: nat, g: nat, b: nat)
    requires r < 256 && g < 256 && b < 256
    ensures IsHexColor(HexColor(r, g, b))
    ensures Slices(HexColor(r, g, b), 1) == [r, g, b]
  {
    var s := HexColor(r, g, b);
    assert s[1..3] == HexPair(r) && s[3..5] == HexPair(g) && s[5..7] == HexPair(b);
    LongColorChannels(s);
  }

  /** The channels a colour denotes. In the 3-digit form each digit stands
      for itself twice, so `#FFF` is `#FFFFFF`. */
  function Channels(s: string): (c: seq<nat>)
    requires IsHexColor(s)
    ensures |c| == 3 && forall k :: 0 <= k < 3 ==> c[k] < 256
  {
    if |s| == 4 then [HexValue([s[1], s[1]]), HexValue([s[2], s[2]]), HexValue([s[3], s[3]])]
    else [HexValue(s[1..3]), HexValue(s[3..5]), HexValue(s[5..7])]
  }

  /** The 6-digit colour a 3-digit one abbreviates. */
  function Expand(s: string): (t: string)
    requires IsHexColor(s) && |s| == 4
    ensures IsHexColor(t) && |t| == 7
  {
    ['#', s[1], s[1], s[2], s[2], s[3], s[3]]
  }

  /** The decoder with the 3-digit branch corrected: the same errors as the
      code, the same text as the code on 6-digit colours, and three channels
      in [0, 255] for every accepted colour. */
  function DecodeColor(v: JsValue): (r: Result<string>)
    ensures !v.Str? ==> r == Err(TypeError)
    ensures v.Str? && !IsHexColor(v.text) ==> r == Err(RangeError)
    ensures v.Str? && IsHexColor(v.text) && |v.text| == 7 ==> r == Ok(RgbText(Slices(v.text, 1)))
    ensures v.Str? && IsHexColor(v.text) && |v.text| == 4 ==> r == Ok(RgbText(Slices(Expand(v.text), 1)))
  {
    if !v.Str? then Err(TypeError)
    else if !IsHexColor(v.text) then Err(RangeError)
    else
      var s := v.text;
      if |s| == 7 then LongColorChannels(s); Ok(RgbText(Channels(s)))
      else
        var t := Expand(s);
        LongColorChannels(t);
        assert t[1..3] == [s[1], s[1]] && t[3..5] == [s[2], s[2]] && t[5..7] == [s[3], s[3]];
        Ok(RgbText(Channels(s)))
  }

  /** The corrected decoder on the examples `#FFF` and `#000`. */
  lemma DecodeColorExamples()
    ensures DecodeColor(Str("#FFF")) == Ok("(255, 255, 255)")
    ensures DecodeColor(Str("#000")) == Ok("(0, 0, 0)")
  {
    LiteralIsHexColor("#FFF");
    LiteralIsHexColor("#000");
    assert Expand("#FFF") == "#FFFFFF";
    assert Expand("#000") == "#000000";
    WhiteExample();
    BlackExample();
  }
}
