/** `getContrastingTextColor` from the shared helpers: black or white label text for a background colour. */
module Contrast {
  import opened Common
  import opened ColorNames


  const Black := "#000000"
  const White := "#FFFFFF"

  /** The byte written by the two hex digits at `i` and `i + 1`. */
  function HexByte(h: string, i: nat): (b: nat)
    requires IsHex6(h) && i <= 4
    ensures b < 256
  {
    16 * HexValue(h[i]) + HexValue(h[i + 1])
  }

  /** The light/dark decision in integer form: a weighted sum of the channels
      above half of the maximum, `299r + 587g + 114b > 127500`. */
  predicate IsLight(h: string)
    requires IsHex6(h)
    ensures IsLight(h) <==>
              (0.299 * HexByte(h, 0) as real + 0.587 * HexByte(h, 2) as real
               + 0.114 * HexByte(h, 4) as real) / 255.0 > 0.5
  {
    LuminanceThreshold(HexByte(h, 0), HexByte(h, 2), HexByte(h, 4));
    299 * HexByte(h, 0) + 587 * HexByte(h, 2) + 114 * HexByte(h, 4) > 127500
  }

  /** `str.replace('#', '')`: removes the first `#`, if any. */
  function RemoveFirstHash(s: string): (r: string)
    ensures '#' in s ==> |r| == |s| - 1
    ensures s != [] && s[0] == '#' ==> r == s[1..]
    ensures '#' !in s ==> r == s
  {
    match IndexOf(s, '#')
    case None => s
    case Some(k) => s[..k] + s[k + 1..]
  }

  /** `getContrastingTextColor(bgColor)`: black text on light backgrounds,
      white text on dark ones and for anything that does not resolve to six hex
      digits. A `#`-prefixed string is taken as a code; anything else is first
      resolved as a colour name. */
  function ContrastingTextColor(v: Value): (r: string)
    ensures r == Black || r == White
    ensures !Truthy(v) || v.NonString? ==> r == White
    ensures v.Text? && v.s != "" && v.s[0] == '#' ==>
              (r == Black <==> IsHex6(v.s[1..]) && IsLight(v.s[1..]))
    ensures v.Text? && v.s != "" && v.s[0] != '#' ==>
              (r == Black <==> IsLight(ColorNameToHex(v)[1..]))
  {
    if !Truthy(v) || !v.Text? then White
    else
      var hex := if v.s[0] == '#' then v.s else ColorNameToHex(v);
      var color := RemoveFirstHash(hex);
      if |color| != 6 || !IsHex6(color) then White
      else
        var red, green, blue := HexByte(color, 0), HexByte(color, 2), HexByte(color, 4);
        LuminanceThreshold(red, green, blue);
        if (0.299 * red as real + 0.587 * green as real + 0.114 * blue as real) / 255.0 > 0.5
        then Black else White
  }

  /** The source's floating-point luminance test, read over exact reals, is the
      integer comparison `299r + 587g + 114b > 127500`. */
  lemma LuminanceThreshold(r: int, g: int, b: int)
    ensures (0.299 * r as real + 0.587 * g as real + 0.114 * b as real) / 255.0 > 0.5
            <==> 299 * r + 587 * g + 114 * b > 127500
  {
    var sum := 0.299 * r as real + 0.587 * g as real + 0.114 * b as real;
    assert sum * 1000.0 == (299 * r + 587 * g + 114 * b) as real;
  }

  /** A colour name always resolves to a well-formed code, so the named path
      never reaches the malformed-colour fallback. */
  lemma NamedColorAlwaysValid(s: string)
    ensures IsHex6(RemoveFirstHash(ColorNameToHex(Text(s))))
  {
  }

  /** White backgrounds get black text. */
  lemma WhiteCodeGivesBlack()
    ensures ContrastingTextColor(Text("#FFFFFF")) == Black
  {
    var h := "#FFFFFF"[1..];
    assert h == "FFFFFF";
    assert HexByte(h, 0) == 255 && HexByte(h, 2) == 255 && HexByte(h, 4) == 255;
  }

  /** Black backgrounds get white text. */
  lemma BlackCodeGivesWhite()
    ensures ContrastingTextColor(Text("#000000")) == White
  {
    var h := "#000000"[1..];
    assert h == "000000";
    assert HexByte(h, 0) == 0 && HexByte(h, 2) == 0 && HexByte(h, 4) == 0;
  }

  /** Pure red is dark: its weighted sum is 76245. */
  lemma RedCodeGivesWhite()
    ensures ContrastingTextColor(Text("#FF0000")) == White
  {
    var h := "#FF0000"[1..];
    assert h == "FF0000";
    assert HexByte(h, 0) == 255 && HexByte(h, 2) == 0 && HexByte(h, 4) == 0;
  }

  /** A five-digit code is malformed and gets white text. */
  lemma ShortCodeGivesWhite()
    ensures ContrastingTextColor(Text("#12345")) == White
  {
    assert |"#12345"[1..]| == 5;
  }

  /** A name (not `#`-prefixed) that resolves to a light code gets black text. */
  lemma NamedLightGivesBlack(s: string, hex: string)
    requires s != "" && s[0] != '#'
    requires ColorNameToHex(Text(s)) == hex && IsHexColor(hex) && IsLight(hex[1..])
    ensures ContrastingTextColor(Text(s)) == Black
  {
  }

  /** The name `white` resolves to `#FFFFFF` and gets black text. */
  lemma WhiteNameGivesBlack()
    ensures ContrastingTextColor(Text("white")) == Black
  {
    WhiteNameResolves();
    var h := "#FFFFFF"[1..];
    assert h == "FFFFFF";
    assert HexByte(h, 0) == 255 && HexByte(h, 2) == 255 && HexByte(h, 4) == 255;
    NamedLightGivesBlack("white", "#FFFFFF");
  }

  /** An unrecognised name resolves to the table's gray, whose weighted sum
      128000 is above the threshold: the label text is black, not white. */
  lemma UnknownNameGivesBlack()
    ensures ContrastingTextColor(Text("not-a-color")) == Black
  {
    UnknownNameResolves();
    var h := UnknownHex[1..];
    assert h == "808080";
    assert HexByte(h, 0) == 128 && HexByte(h, 2) == 128 && HexByte(h, 4) == 128;
    NamedLightGivesBlack("not-a-color", UnknownHex);
  }
}
