/** Colour helpers shared by inky.js and ink-canvas.js (both files carry the
    same three functions): `byteHex`, `toColorString` and `toColorStruct`,
    converting between a Windows.UI.Color and the six-digit `#rrggbb` form of
    CSS Color Module Level 4, section 5.2. */
module Colors {
  import opened Options

  /** One 8-bit channel of a Windows.UI.Color. */
  type Byte = x: int | 0 <= x < 256

  /** A Windows.UI.Color: alpha, red, green, blue. */
  datatype Color = Color(a: Byte, r: Byte, g: Byte, b: Byte)

  /** The Windows.UI.Colors constants the library names; Gray is the fallback. */
  datatype ColorName = Black | Blue | Red | Green | Yellow | Aqua | Lime | Gold | White | Gray

  /** The ARGB values of the Windows.UI.Colors constants (the CSS named colours). */
  function NamedColor(n: ColorName): (c: Color)
    ensures c.a == 255
  {
    match n
    case Black => Color(255, 0, 0, 0)
    case Blue => Color(255, 0, 0, 255)
    case Red => Color(255, 255, 0, 0)
    case Green => Color(255, 0, 128, 0)
    case Yellow => Color(255, 255, 255, 0)
    case Aqua => Color(255, 0, 255, 255)
    case Lime => Color(255, 0, 255, 0)
    case Gold => Color(255, 255, 215, 0)
    case White => Color(255, 255, 255, 255)
    case Gray => Color(255, 128, 128, 128)
  }

  predicate IsLowerHexDigit(c: char) {
    '0' <= c <= '9' || 'a' <= c <= 'f'
  }

  predicate IsHexDigit(c: char) {
    IsLowerHexDigit(c) || 'A' <= c <= 'F'
  }

  /** The value of one hexadecimal digit, either case (as `parseInt(_, 16)` reads it). */
  function HexValue(c: char): (v: nat)
    requires IsHexDigit(c)
    ensures v < 16
  {
    if '0' <= c <= '9' then c as int - '0' as int
    else if 'a' <= c <= 'f' then c as int - 'a' as int + 10
    else c as int - 'A' as int + 10
  }

  /** The digit `Number.prototype.toString(16)` writes for d: lower case. */
  function HexDigit(d: nat): (c: char)
    requires d < 16
    ensures IsLowerHexDigit(c) && HexValue(c) == d
  {
    if d < 10 then ('0' as int + d) as char else ('a' as int + d - 10) as char
  }

  /** The lower-case digit with the same value as a digit of either case. */
  function LowerHex(c: char): (l: char)
    requires IsHexDigit(c)
    ensures IsLowerHexDigit(l) && HexValue(l) == HexValue(c)
  {
    if 'A' <= c <= 'F' then (c as int - 'A' as int + 'a' as int) as char else c
  }

  /** The number a string of hexadecimal digits denotes, most significant first. */
  function HexNumber(s: string): nat
    requires forall i :: 0 <= i < |s| ==> IsHexDigit(s[i])
  {
    if s == [] then 0 else HexNumber(s[..|s| - 1]) * 16 + HexValue(s[|s| - 1])
  }

  /** `n.toString(16)` for a non-negative integer n: the shortest string of
      lower-case hexadecimal digits denoting n. */
  function ToHex(n: nat): (s: string)
    ensures |s| >= 1
    ensures forall i :: 0 <= i < |s| ==> IsLowerHexDigit(s[i])
    ensures HexNumber(s) == n
    ensures |s| == 1 <==> n < 16
    ensures 16 <= n < 256 ==> |s| == 2
    decreases n
  {
    if n < 16 then [HexDigit(n)] else ToHex(n / 16) + [HexDigit(n % 16)]
  }

  /** The channel value written as the two hex digits at s[i], s[i + 1]. */
  function ChannelAt(s: string, i: nat): Byte
    requires i + 1 < |s| && IsHexDigit(s[i]) && IsHexDigit(s[i + 1])
  {
    HexValue(s[i]) * 16 + HexValue(s[i + 1])
  }

  /** byteHex (inky.js:244-252): `num.toString(16)`, zero-padded on the left
      when it has a single digit. For a byte this is exactly two lower-case
      digits denoting the byte. */
  function ByteHex(num: Byte): (s: string)
    ensures |s| == 2 && IsLowerHexDigit(s[0]) && IsLowerHexDigit(s[1])
    ensures ChannelAt(s, 0) == num
  {
    var hex := ToHex(num);
    if |hex| == 1 then "0" + hex else hex
  }

  /** toColorString (inky.js:262-265): `"#"` followed by the byteHex of red,
      green and blue; the alpha channel is dropped. */
  function ToColorString(c: Color): (s: string)
    ensures |s| == 7 && s[0] == '#'
    ensures forall i :: 1 <= i < 7 ==> IsLowerHexDigit(s[i])
    ensures ChannelAt(s, 1) == c.r && ChannelAt(s, 3) == c.g && ChannelAt(s, 5) == c.b
  {
    var s := "#" + ByteHex(c.r) + ByteHex(c.g) + ByteHex(c.b);
    assert s[1..3] == ByteHex(c.r) && s[3..5] == ByteHex(c.g) && s[5..7] == ByteHex(c.b);
    s
  }

  /** The colour names `toColorStruct` recognises (inky.js:279-305),
      compared exactly (a JavaScript `switch` uses `===`). */
  function NameOf(s: string): (n: Option<ColorName>)
    ensures n != Some(Gray)
    ensures n.Some? ==> |s| > 0 && s[0] != '#'
  {
    if s == "Black" then Some(Black)
    else if s == "Blue" then Some(Blue)
    else if s == "Red" then Some(Red)
    else if s == "Green" then Some(Green)
    else if s == "Yellow" then Some(Yellow)
    else if s == "Aqua" then Some(Aqua)
    else if s == "Lime" then Some(Lime)
    else if s == "Gold" then Some(Gold)
    else if s == "White" then Some(White)
    else None
  }

  /** The shape `toColorStruct` decodes: seven characters, the first `#`. */
  predicate IsHashForm(s: string) {
    |s| == 7 && s[0] == '#'
  }

  /** A `#` form whose six digits are all hexadecimal. */
  predicate IsHexColor(s: string) {
    IsHashForm(s) && forall i :: 1 <= i < 7 ==> IsHexDigit(s[i])
  }

  /** The strings toColorStruct is modelled on: anything except a `#` form
      with a non-hex digit, where `parseInt`'s partial parsing would apply. */
  predicate ParsableColor(s: string) {
    IsHashForm(s) ==> IsHexColor(s)
  }

  /** toColorStruct (inky.js:277-316): a listed colour name gives its
      constant; otherwise a seven-character `#` string is decoded pair by
      pair with alpha 255; anything else gives gray. */
  function ToColorStruct(s: string): (c: Color)
    requires ParsableColor(s)
    ensures c.a == 255
  {
    match NameOf(s)
    case Some(n) => NamedColor(n)
    case None =>
      if IsHashForm(s) then Color(255, ChannelAt(s, 1), ChannelAt(s, 3), ChannelAt(s, 5))
      else NamedColor(Gray)
  }

  /** Two lower-case digits with the same channel value are the same digits. */
  lemma {:induction false} ByteHexOfDigits(x: char, y: char)
    requires IsHexDigit(x) && IsHexDigit(y)
    ensures ByteHex(HexValue(x) * 16 + HexValue(y)) == [LowerHex(x), LowerHex(y)]
  {
    var v := HexValue(x) * 16 + HexValue(y);
    var s := ByteHex(v);
    DigitsOfChannel(HexValue(s[0]), HexValue(s[1]), HexValue(x), HexValue(y));
    LowerDigitUnique(s[0], LowerHex(x));
    LowerDigitUnique(s[1], LowerHex(y));
  }

  lemma DigitsOfChannel(h1: nat, l1: nat, h2: nat, l2: nat)
    requires h1 < 16 && l1 < 16 && h2 < 16 && l2 < 16
    requires h1 * 16 + l1 == h2 * 16 + l2
    ensures h1 == h2 && l1 == l2
  {
  }

  lemma LowerDigitUnique(c: char, d: char)
    requires IsLowerHexDigit(c) && IsLowerHexDigit(d) && HexValue(c) == HexValue(d)
    ensures c == d
  {
  }

  /** Decoding what toColorString wrote gives back red, green and blue, with
      alpha forced to 255. */
  lemma ColorStringRoundTrip(c: Color)
    ensures ToColorStruct(ToColorString(c)) == c.(a := 255)
  {
    var s := ToColorString(c);
    assert NameOf(s) == None;
  }

  /** Encoding a decoded `#rrggbb` string gives back the same digits, in
      lower case. */
  lemma {:induction false} HexColorRoundTrip(s: string)
    requires IsHexColor(s)
    ensures ToColorString(ToColorStruct(s))
         == ['#', LowerHex(s[1]), LowerHex(s[2]), LowerHex(s[3]), LowerHex(s[4]), LowerHex(s[5]), LowerHex(s[6])]
  {
    var c := DecodeHexColor(s);
    var r, g, b := ByteHex(c.r), ByteHex(c.g), ByteHex(c.b);
    assert ToColorString(c) == "#" + r + g + b;
    ByteHexOfDigits(s[1], s[2]);
    ByteHexOfDigits(s[3], s[4]);
    ByteHexOfDigits(s[5], s[6]);
    assert r == [LowerHex(s[1]), LowerHex(s[2])];
    assert g == [LowerHex(s[3]), LowerHex(s[4])];
    assert b == [LowerHex(s[5]), LowerHex(s[6])];
  }

  /** A `#rrggbb` string is not a colour name, so it is decoded digit pair by digit pair. */
  lemma DecodeHexColor(s: string) returns (c: Color)
    requires IsHexColor(s)
    ensures c == ToColorStruct(s) == Color(255, ChannelAt(s, 1), ChannelAt(s, 3), ChannelAt(s, 5))
  {
    assert NameOf(s) == None;
    c := ToColorStruct(s);
  }

  /** A string that is neither a listed name nor a seven-character `#` form
      decodes to gray. */
  lemma GrayFallback(s: string)
    requires NameOf(s).None? && !IsHashForm(s)
    ensures ToColorStruct(s) == NamedColor(Gray)
  {
  }
}
