/** `colorNameToHex` from the shared helpers: resolution of a colour name through a fixed table. */
module ColorNames {
  import opened Common


  /** Six hexadecimal digits. */
  predicate IsHex6(h: string) {
    |h| == 6 && forall i :: 0 <= i < 6 ==> IsHexDigit(h[i])
  }

  /** A `#RRGGBB` code. */
  predicate IsHexColor(h: string) {
    |h| == 7 && h[0] == '#' && IsHex6(h[1..])
  }

  /** The fixed table of common car colours, keyed by lower-case name. */
  function ColorTable(key: string): (r: Option<string>)
    ensures r.Some? ==> IsHexColor(r.value)
    ensures key == "unknown" ==> r == Some(UnknownHex)
  {
    match key
    case "white" => Some("#FFFFFF")
    case "black" => Some("#000000")
    case "gray" => Some("#808080")
    case "silver" => Some("#C0C0C0")
    case "red" => Some("#FF0000")
    case "blue" => Some("#0000FF")
    case "green" => Some("#008000")
    case "yellow" => Some("#FFFF00")
    case "orange" => Some("#FFA500")
    case "brown" => Some("#A52A2A")
    case "beige" => Some("#F5F5DC")
    case "gold" => Some("#FFD700")
    case "purple" => Some("#800080")
    case "pink" => Some("#FFC0CB")
    case "unknown" => Some("#808080")
    case _ => None
  }

  /** `h` is one of the table's codes. */
  ghost predicate InColorTable(h: string) {
    exists key :: ColorTable(key) == Some(h)
  }

  const UnknownHex := "#808080"

  /** The key a colour name is looked up under: lower-cased, then trimmed. It
      has no capital letters and no whitespace at either end. */
  function NormalizeName(s: string): (k: string)
    ensures forall i :: 0 <= i < |k| ==> !('A' <= k[i] <= 'Z')
    ensures k != [] ==> !IsJsWhitespace(k[0]) && !IsJsWhitespace(k[|k| - 1])
    ensures |k| <= |s|
  {
    var t := ToLower(s);
    LowerHasNoCapitals(s);
    TrimHasNoCapitals(t);
    Trim(t)
  }

  lemma LowerHasNoCapitals(s: string)
    ensures forall i :: 0 <= i < |s| ==> !('A' <= ToLower(s)[i] <= 'Z')
  {
  }

  /** Trimming takes an infix, so it adds no capital letter. */
  lemma TrimHasNoCapitals(t: string)
    requires forall i :: 0 <= i < |t| ==> !('A' <= t[i] <= 'Z')
    ensures forall i :: 0 <= i < |Trim(t)| ==> !('A' <= Trim(t)[i] <= 'Z')
  {
    var k := Trim(t);
    var a := LeadingWhitespace(t);
    forall i | 0 <= i < |k|
      ensures !('A' <= k[i] <= 'Z')
    {
      assert k[i] == t[a + i];
    }
  }

  /** `COLOR_NAME_TO_HEX[key] || COLOR_NAME_TO_HEX.unknown`: the entry for the
      key, or gray when there is none (every entry is a non-empty string, so
      the `||` only fires on a missing key). */
  function LookupOrGray(key: string): (r: string)
    ensures InColorTable(r)
    ensures IsHexColor(r)
    ensures ColorTable(key).None? ==> r == UnknownHex
    ensures ColorTable(key).Some? ==> r == ColorTable(key).value
  {
    assert ColorTable("unknown") == Some(UnknownHex);
    match ColorTable(key)
    case Some(h) => h
    case None => UnknownHex
  }

  /** `colorNameToHex(colorName)`: absent, empty, non-string and unrecognised
      names give the gray of the `unknown` entry; a recognised name gives its
      entry, whatever its case and surrounding whitespace. */
  function ColorNameToHex(v: Value): (r: string)
    ensures InColorTable(r)
    ensures IsHexColor(r)
    ensures !Truthy(v) || v.NonString? ==> r == UnknownHex
    ensures v.Text? && ColorTable(NormalizeName(v.s)).None? ==> r == UnknownHex
    ensures v.Text? && v.s != "" && ColorTable(NormalizeName(v.s)).Some? ==>
              r == ColorTable(NormalizeName(v.s)).value
  {
    if !Truthy(v) || !v.Text? then LookupOrGray("unknown") else LookupOrGray(NormalizeName(v.s))
  }

  lemma NormalizePaddedRed()
    ensures NormalizeName(" Red ") == "red"
  {
    assert ToLower(" Red ") == " " + "red" + " ";
    TrimUnique(" red ", " ", "red", " ");
  }

  /** A name already in lower case, without surrounding blanks, is its own key. */
  lemma NormalizePlainName(s: string)
    requires s != [] && !IsJsWhitespace(s[0]) && !IsJsWhitespace(s[|s| - 1])
    requires forall i :: 0 <= i < |s| ==> !('A' <= s[i] <= 'Z')
    ensures NormalizeName(s) == s
  {
    ToLowerKeepsLower(s);
    assert s == "" + s + "";
    TrimUnique(s, "", s, "");
  }

  /** Case and surrounding blanks are ignored: `' Red '` is red. */
  lemma PaddedRedIsRed()
    ensures ColorNameToHex(Text(" Red ")) == "#FF0000"
  {
    NormalizePaddedRed();
    assert LookupOrGray("red") == "#FF0000";
  }

  lemma WhiteNameResolves()
    ensures ColorNameToHex(Text("white")) == "#FFFFFF"
  {
    NormalizePlainName("white");
    assert LookupOrGray("white") == "#FFFFFF";
  }

  lemma UnknownNameResolves()
    ensures ColorNameToHex(Text("not-a-color")) == UnknownHex
  {
    NormalizePlainName("not-a-color");
    assert LookupOrGray("not-a-color") == UnknownHex;
  }

  /** An unrecognised name falls back to gray. */
  lemma UnrecognisedNameIsGray()
    ensures ColorNameToHex(Text("chartreuse")) == UnknownHex
  {
    NormalizePlainName("chartreuse");
    assert LookupOrGray("chartreuse") == UnknownHex;
  }

  /** The lookup ignores the case of ASCII letters. */
  lemma ColorNameCaseInsensitive(s: string)
    ensures ColorNameToHex(Text(s)) == ColorNameToHex(Text(ToLower(s)))
    ensures ColorNameToHex(Text(s)) == ColorNameToHex(Text(ToUpper(s)))
  {
    assert ToLower(ToLower(s)) == ToLower(s);
    assert ToLower(ToUpper(s)) == ToLower(s);
  }

  /** Whitespace around a name does not change the colour it resolves to. */
  lemma ColorNamePaddingIgnored(w1: string, s: string, w2: string)
    requires AllWhitespace(w1) && AllWhitespace(w2)
    ensures ColorNameToHex(Text(w1 + s + w2)) == ColorNameToHex(Text(s))
  {
    ToLowerPadded(w1, s, w2);
    TrimIgnoresPadding(w1, ToLower(s), w2);
    assert NormalizeName(w1 + s + w2) == NormalizeName(s);
    if s == "" {
      assert NormalizeName(s) == "";
      assert ColorTable("") == None;
    }
  }
}
