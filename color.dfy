// src/ImageSharp/Color.cs: a packed RGBA colour of four bytes, its
// construction, FromHex parsing of web colour strings, WithOpacity and
// equality.

module Colors {
  import opened Wrappers
  import opened Common

  /** Color: the four channels of the Rgba32 backing value. Struct equality is channel equality. */
  datatype Color = Color(r: byte, g: byte, b: byte, a: byte) {
    /** WithOpacity: the same channels with alpha replaced. */
    function WithOpacity(opacity: byte): (c: Color)
      ensures c.r == r && c.g == g && c.b == b && c.a == opacity
      ensures c == this <==> a == opacity
    {
      Color(r, g, b, opacity)
    }
  }

  /** Color(r, g, b): an opaque colour. */
  function Rgb(r: byte, g: byte, b: byte): (c: Color)
    ensures c.a == 255 && c.r == r && c.g == g && c.b == b
  {
    Color(r, g, b, 255)
  }

  const White: Color := Color(255, 255, 255, 255)
  const Black: Color := Color(0, 0, 0, 255)

  /** The value of a hexadecimal digit, either case. */
  function DigitValue(ch: char): Option<nat> {
    if '0' <= ch <= '9' then Some(ch as nat - '0' as nat)
    else if 'a' <= ch <= 'f' then Some(ch as nat - 'a' as nat + 10)
    else if 'A' <= ch <= 'F' then Some(ch as nat - 'A' as nat + 10)
    else None
  }

  /** The white space that unsigned-integer parsing skips at either end. */
  predicate IsWhite(ch: char) {
    ch == ' ' || ('\t' <= ch <= '\r')
  }

  function TrimStart(s: string): (t: string)
    ensures |t| <= |s| && t == s[|s| - |t|..]
    ensures t != [] ==> !IsWhite(t[0])
    ensures forall i :: 0 <= i < |s| - |t| ==> IsWhite(s[i])
  {
    if s != [] && IsWhite(s[0]) then TrimStart(s[1..]) else s
  }

  function TrimEnd(s: string): (t: string)
    ensures |t| <= |s| && t == s[..|t|]
    ensures t != [] ==> !IsWhite(t[|t| - 1])
    ensures forall i :: |t| <= i < |s| ==> IsWhite(s[i])
  {
    if s != [] && IsWhite(s[|s| - 1]) then TrimEnd(s[..|s| - 1]) else s
  }

  /** The value of a string of hexadecimal digits, most significant first. */
  function HexValue(s: string): Option<nat> {
    if s == [] then Some(0)
    else
      match (HexValue(s[..|s| - 1]), DigitValue(s[|s| - 1]))
      case (Some(high), Some(low)) => Some(high * 16 + low)
      case _ => None
  }

  /** The string without its trailing NUL characters. */
  function TrimTrailingNul(s: string): (t: string)
    ensures |t| <= |s| && t == s[..|t|]
    ensures t != [] ==> t[|t| - 1] != '\0'
    ensures forall i :: |t| <= i < |s| ==> s[i] == '\0'
  {
    if s != [] && s[|s| - 1] == '\0' then TrimTrailingNul(s[..|s| - 1]) else s
  }

  /**
   * uint.TryParse(s, NumberStyles.HexNumber): white space may surround one
   * or more hexadecimal digits, and NUL characters may follow the trailing
   * white space (the .NET number parser accepts a tail of '\0'); the value
   * must fit in 32 bits.
   */
  function ParseHexUInt(s: string): Option<nat> {
    var digits := TrimEnd(TrimStart(TrimTrailingNul(s)));
    if digits == [] then None
    else match HexValue(digits)
      case Some(v) => if v < 0x1_0000_0000 then Some(v) else None
      case None => None
  }

  /** ToRgbaHex: strip one leading '#', then widen to eight digits, or fail. */
  function ToRgbaHex(hex: string): Option<string> {
    var h := if |hex| > 0 && hex[0] == '#' then hex[1..] else hex;
    if |h| == 8 then Some(h)
    else if |h| == 6 then Some(h + "FF")
    else if |h| < 3 || |h| > 4 then None
    else
      var alpha := if |h| == 3 then 'F' else h[3];
      Some([h[0], h[0], h[1], h[1], h[2], h[2], alpha, alpha])
  }

  /** The low byte of a value, as the (byte) cast truncates it; (v >> k) is ByteOf(v / 2^k). */
  function ByteOf(value: nat): byte {
    (value % 256) as byte
  }

  /** 16^n, the factor n more hexadecimal digits shift a value by. */
  function Pow16(n: nat): nat {
    if n == 0 then 1 else 16 * Pow16(n - 1)
  }

  /**
   * FromHex: a null or empty string is an argument error (as Guard.NotNullOrEmpty
   * throws); otherwise the string is widened to RRGGBBAA and parsed as one
   * 32-bit number whose bytes from the top are red, green, blue and alpha.
   */
  function FromHex(hex: Option<string>): Result<Color, Error> {
    match hex
    case None => Failure(ArgumentNull("hex"))
    case Some(s) =>
      if s == [] then Failure(Argument("hex"))
      else match ToRgbaHex(s)
        case None => Failure(Argument("hex"))
        case Some(h) =>
          match ParseHexUInt(h)
          case None => Failure(Argument("hex"))
          case Some(v) => Success(Color(ByteOf(v / 0x100_0000), ByteOf(v / 0x1_0000), ByteOf(v / 0x100), ByteOf(v)))
  }

  // ---- The reference formatting, the partner of FromHex ----

  /** The upper-case hexadecimal digit of d. */
  function HexDigit(d: nat): char
    requires d < 16
  {
    if d < 10 then ('0' as int + d) as char else ('A' as int + d - 10) as char
  }

  /** Two upper-case hexadecimal digits of a byte. */
  function ByteHex(b: byte): (s: string)
    ensures |s| == 2
  {
    [HexDigit(b as int / 16), HexDigit(b as int % 16)]
  }

  /** The RRGGBBAA form of a colour. */
  function FormatRgba(c: Color): (s: string)
    ensures |s| == 8
  {
    ByteHex(c.r) + ByteHex(c.g) + ByteHex(c.b) + ByteHex(c.a)
  }

  /** The RRGGBB form of a colour's red, green and blue. */
  function FormatRgb(c: Color): (s: string)
    ensures |s| == 6
  {
    ByteHex(c.r) + ByteHex(c.g) + ByteHex(c.b)
  }

  lemma DigitOfHexDigit(d: nat)
    requires d < 16
    ensures DigitValue(HexDigit(d)) == Some(d)
  {
  }

  lemma ByteHexValue(b: byte)
    ensures HexValue(ByteHex(b)) == Some(b as nat)
  {
    var s := ByteHex(b);
    DigitOfHexDigit(b as int / 16);
    DigitOfHexDigit(b as int % 16);
    assert s[..1][..0] == [];
    assert HexValue(s[..1]) == Some(b as int / 16);
    assert (b as int / 16) * 16 + b as int % 16 == b as int;
  }

  /** Appending digits shifts the value left by four bits per digit. */
  lemma {:induction false} HexValueAppend(s: string, t: string)
    requires HexValue(s).Some? && HexValue(t).Some?
    ensures HexValue(s + t) == Some(HexValue(s).value * Pow16(|t|) + HexValue(t).value)
    decreases |t|
  {
    if t == [] {
      assert s + t == s;
    } else {
      var t' := t[..|t| - 1];
      var d := DigitValue(t[|t| - 1]).value;
      assert HexValue(t) == Some(HexValue(t').value * 16 + d);
      assert (s + t)[..|s + t| - 1] == s + t';
      assert (s + t)[|s + t| - 1] == t[|t| - 1];
      HexValueAppend(s, t');
      assert Pow16(|t|) == Pow16(|t'|) * 16;
      ShiftDigit(HexValue(s).value, Pow16(|t'|), HexValue(t').value, d);
    }
  }

  lemma ShiftDigit(a: nat, p: nat, b: nat, d: nat)
    ensures (a * p + b) * 16 + d == a * (p * 16) + (b * 16 + d)
  {
  }

  /** Two more digits shift the value left by eight bits. */
  lemma AppendTwoDigits(s: string, t: string)
    requires HexValue(s).Some? && HexValue(t).Some? && |t| == 2
    ensures HexValue(s + t) == Some(HexValue(s).value * 0x100 + HexValue(t).value)
  {
    HexValueAppend(s, t);
    assert Pow16(1) == 16;
    assert Pow16(2) == 0x100;
  }

  /** The number spelled by FormatRgba(c). */
  lemma FormatRgbaValue(c: Color)
    ensures HexValue(FormatRgba(c)) == Some(c.r as nat * 0x100_0000 + c.g as nat * 0x1_0000 + c.b as nat * 0x100 + c.a as nat)
  {
    var r, g, b, a := c.r as nat, c.g as nat, c.b as nat, c.a as nat;
    ByteHexValue(c.r);
    ByteHexValue(c.g);
    ByteHexValue(c.b);
    ByteHexValue(c.a);
    AppendTwoDigits(ByteHex(c.r), ByteHex(c.g));
    AppendTwoDigits(ByteHex(c.r) + ByteHex(c.g), ByteHex(c.b));
    AppendTwoDigits(ByteHex(c.r) + ByteHex(c.g) + ByteHex(c.b), ByteHex(c.a));
    assert ((r * 0x100 + g) * 0x100 + b) * 0x100 + a == r * 0x100_0000 + g * 0x1_0000 + b * 0x100 + a;
  }

  /** The byte w places up of a number whose digits above it end in b. */
  lemma PackedByte(v: nat, high: nat, b: byte, low: nat, w: nat)
    requires 0 < w && low < w && v == (high * 256 + b as nat) * w + low
    ensures ByteOf(v / w) == b
  {
    DivModUnique(v, w, high * 256 + b as nat, low);
    DivModUnique(high * 256 + b as nat, 256, high, b as nat);
  }

  lemma BytesOfPacked(r: byte, g: byte, b: byte, a: byte)
    ensures var v := r as nat * 0x100_0000 + g as nat * 0x1_0000 + b as nat * 0x100 + a as nat;
      ByteOf(v / 0x100_0000) == r && ByteOf(v / 0x1_0000) == g && ByteOf(v / 0x100) == b && ByteOf(v) == a
  {
    var r', g', b', a' := r as nat, g as nat, b as nat, a as nat;
    var v := r' * 0x100_0000 + g' * 0x1_0000 + b' * 0x100 + a';
    PackedByte(v, 0, r, g' * 0x1_0000 + b' * 0x100 + a', 0x100_0000);
    PackedByte(v, r', g, b' * 0x100 + a', 0x1_0000);
    PackedByte(v, r' * 0x100 + g', b, a', 0x100);
    DivModUnique(v, 256, r' * 0x1_0000 + g' * 0x100 + b', a');
  }

  /** A string that starts with no white space and ends with neither white space nor NUL is parsed whole. */
  lemma NothingTrimmed(s: string)
    requires s != [] && !IsWhite(s[0]) && !IsWhite(s[|s| - 1]) && s[|s| - 1] != '\0'
    ensures TrimEnd(TrimStart(TrimTrailingNul(s))) == s
  {
    assert TrimTrailingNul(s) == s;
    assert TrimStart(s) == s;
  }

  lemma NoWhiteInFormat(s: string)
    requires forall i :: 0 <= i < |s| ==> DigitValue(s[i]).Some?
    ensures TrimEnd(TrimStart(TrimTrailingNul(s))) == s
  {
    if s != [] {
      assert DigitValue(s[0]).Some? && DigitValue(s[|s| - 1]).Some?;
      NothingTrimmed(s);
    }
  }

  lemma FormatIsHex(c: Color)
    ensures forall i :: 0 <= i < |FormatRgba(c)| ==> DigitValue(FormatRgba(c)[i]).Some?
    ensures FormatRgba(c)[..6] == FormatRgb(c)
  {
  }

  /** uint.TryParse reads RRGGBBAA as the packed 32-bit value. */
  lemma ParseFormat(c: Color)
    ensures ParseHexUInt(FormatRgba(c)) ==
      Some(c.r as nat * 0x100_0000 + c.g as nat * 0x1_0000 + c.b as nat * 0x100 + c.a as nat)
  {
    var s := FormatRgba(c);
    FormatIsHex(c);
    NoWhiteInFormat(s);
    FormatRgbaValue(c);
  }

  /** The colour made of the bytes of its own packed value is itself. */
  lemma PackedColor(c: Color)
    ensures var v := c.r as nat * 0x100_0000 + c.g as nat * 0x1_0000 + c.b as nat * 0x100 + c.a as nat;
      Color(ByteOf(v / 0x100_0000), ByteOf(v / 0x1_0000), ByteOf(v / 0x100), ByteOf(v)) == c
  {
    BytesOfPacked(c.r, c.g, c.b, c.a);
  }

  /** Any eight-character string without '#' that parses as c's packed value reads back as c. */
  lemma FromHexEight(s: string, c: Color)
    requires |s| == 8 && s[0] != '#'
    requires ParseHexUInt(s) == Some(c.r as nat * 0x100_0000 + c.g as nat * 0x1_0000 + c.b as nat * 0x100 + c.a as nat)
    ensures FromHex(Some(s)) == Success(c)
    ensures FromHex(Some("#" + s)) == Success(c)
  {
    PackedColor(c);
    assert ToRgbaHex(s) == Some(s);
    assert ("#" + s)[1..] == s;
    assert ToRgbaHex("#" + s) == Some(s);
  }

  /** FromHex reads back every colour written as RRGGBBAA, with or without '#'. */
  lemma FromHexFormat(c: Color)
    ensures FromHex(Some(FormatRgba(c))) == Success(c)
    ensures FromHex(Some("#" + FormatRgba(c))) == Success(c)
  {
    ParseFormat(c);
    FormatIsHex(c);
    FromHexEight(FormatRgba(c), c);
  }

  /** Six digits RRGGBB read as the opaque colour. */
  lemma FromHexRgb(c: Color)
    ensures FromHex(Some(FormatRgb(c))) == Success(Rgb(c.r, c.g, c.b))
  {
    var o := Rgb(c.r, c.g, c.b);
    var h := FormatRgb(c);
    assert ByteHex(255) == "FF";
    assert h + "FF" == FormatRgba(o);
    FormatIsHex(c);
    assert h[0] == FormatRgba(c)[0];
    assert h[0] != '#';
    assert ToRgbaHex(h) == Some(FormatRgba(o));
    FromHexFormat(o);
  }

  /** Three or four digits: each digit is doubled, and alpha is F when absent. */
  lemma FromHexShort(h: string)
    requires |h| == 3 || |h| == 4
    requires h[0] != '#'
    ensures var a := if |h| == 3 then 'F' else h[3];
      FromHex(Some(h)) == FromHex(Some([h[0], h[0], h[1], h[1], h[2], h[2], a, a]))
  {
    var a := if |h| == 3 then 'F' else h[3];
    var d := [h[0], h[0], h[1], h[1], h[2], h[2], a, a];
    assert ToRgbaHex(h) == Some(d);
    assert ToRgbaHex(d) == Some(d);
  }

  /** Any length but 3, 4, 6 or 8 after the '#' is rejected. */
  lemma FromHexBadLength(s: string)
    requires s != []
    requires var h := if s[0] == '#' then s[1..] else s; |h| !in {3, 4, 6, 8}
    ensures FromHex(Some(s)).Failure? && FromHex(Some(s)).error == Argument("hex")
  {
  }

  /** A NUL appended to the string changes nothing uint.TryParse reads. */
  lemma ParseHexIgnoresTrailingNul(s: string)
    ensures ParseHexUInt(s + ['\0']) == ParseHexUInt(s)
  {
    assert (s + ['\0'])[..|s|] == s;
  }

  lemma HexValueSix()
    ensures HexValue("ABCDEF") == Some(0xABCDEF)
  {
    assert "A"[..0] == "" && "AB"[..1] == "A" && "ABC"[..2] == "AB";
    assert HexValue("ABC") == Some(0xABC);
    assert "ABCD"[..3] == "ABC" && "ABCDE"[..4] == "ABCD" && "ABCDEF"[..5] == "ABCDE";
  }

  lemma ParseTrailingNuls()
    ensures ParseHexUInt("ABCDEF\0\0") == Some(0xABCDEF)
  {
    var s := "ABCDEF\0\0";
    assert s[..7] == "ABCDEF\0" && s[..7][..6] == "ABCDEF";
    assert TrimTrailingNul(s) == "ABCDEF";
    NoWhiteInFormat("ABCDEF");
    HexValueSix();
  }

  /**
   * NULs count toward the eight characters: "ABCDEF" followed by two NULs
   * parses as 0x00ABCDEF, so its bytes from the top are 0, AB, CD and EF.
   */
  lemma FromHexTrailingNuls()
    ensures FromHex(Some("ABCDEF\0\0")) == Success(Color(0, 0xAB, 0xCD, 0xEF))
  {
    var s := "ABCDEF\0\0";
    assert ToRgbaHex(s) == Some(s);
    ParseTrailingNuls();
    PackedColor(Color(0, 0xAB, 0xCD, 0xEF));
  }

  /**
   * Eight characters that start with no white space, end with neither white
   * space nor NUL, and hold a character that is not a hexadecimal digit are
   * rejected.
   */
  lemma FromHexBadDigit(s: string, i: nat)
    requires |s| == 8 && s[0] != '#' && !IsWhite(s[0]) && !IsWhite(s[7]) && s[7] != '\0'
    requires i < 8 && DigitValue(s[i]).None?
    ensures FromHex(Some(s)) == Failure(Argument("hex"))
  {
    NothingTrimmed(s);
    HexValueNone(s, i);
  }

  lemma {:induction false} HexValueNone(s: string, i: nat)
    requires i < |s| && DigitValue(s[i]).None?
    ensures HexValue(s).None?
    decreases |s|
  {
    if i < |s| - 1 {
      assert s[..|s| - 1][i] == s[i];
      HexValueNone(s[..|s| - 1], i);
    }
  }
}
