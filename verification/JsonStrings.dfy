/** The strings and numbers of JSON, exactly as the parser takes them, in every
    spelling (sections 6 and 7 of RFC 8259). */
module JsonStrings {
  import opened Basics
  import opened Text
  import opened Json
  import opened JsonRoundTrip
  import Hex

  // ---- Characters -----------------------------------------------------------

  /** A character as it may stand in a string: as it is, behind a backslash, or as
      one or two UTF-16 units of four hex digits. */
  datatype Piece = Raw(c: char) | Short(c: char) | Units(hex: seq<string>, c: char)

  /** The letter of the short escapes. */
  function ShortLetter(c: char): Option<char> {
    match c as int
    case 0x22 => Some('"')
    case 0x5C => Some('\\')
    case 0x2F => Some('/')
    case 0x08 => Some('b')
    case 0x0C => Some('f')
    case 0x0A => Some('n')
    case 0x0D => Some('r')
    case 0x09 => Some('t')
    case _ => None
  }

  /** UTF-16: one unit, or a high and a low surrogate (section 2 of RFC 2781). */
  function Utf16(c: char): seq<nat> {
    var p := c as int;
    if p < 0x1_0000 then [p] else [0xD800 + (p - 0x1_0000) / 0x400, 0xDC00 + (p - 0x1_0000) % 0x400]
  }

  predicate IsUnit(h: string) {
    |h| == 4 && Hex.AllHex(h)
  }

  predicate IsPiece(p: Piece) {
    match p
    case Raw(c) => c as int >= 0x20 && c != '"' && c != '\\'
    case Short(c) => ShortLetter(c).Some?
    case Units(hex, c) =>
      && |hex| == |Utf16(c)|
      && forall i :: 0 <= i < |hex| ==> IsUnit(hex[i]) && Hex.HexValue(hex[i]) == Utf16(c)[i]
  }

  /** The piece, then more text. */
  function PieceThen(p: Piece, rest: string): string
    requires IsPiece(p)
  {
    match p
    case Raw(c) => [c] + rest
    case Short(c) => "\\" + ([ShortLetter(c).value] + rest)
    case Units(hex, c) =>
      if |hex| == 1 then "\\u" + (hex[0] + rest) else "\\u" + (hex[0] + ("\\u" + (hex[1] + rest)))
  }

  // ---- Four hex digits ------------------------------------------------------

  lemma HexFour(h: string)
    requires |h| == 4
    ensures Hex.AllHex(h) <==>
            && Hex.HexNibble(h[0]).Some? && Hex.HexNibble(h[1]).Some?
            && Hex.HexNibble(h[2]).Some? && Hex.HexNibble(h[3]).Some?
    ensures Hex.AllHex(h) ==>
              Hex.HexValue(h) == Hex.HexNibble(h[0]).value * 4096 + Hex.HexNibble(h[1]).value * 256
              + Hex.HexNibble(h[2]).value * 16 + Hex.HexNibble(h[3]).value
  {
    hide Hex.HexNibble;
    if Hex.AllHex(h) {
      var a, b, c := h[..3], h[..2], h[..1];
      assert a[..2] == b && b[..1] == c && c[..0] == "";
      assert Hex.HexValue(c) == Hex.HexNibble(h[0]).value;
      assert Hex.HexValue(b) == Hex.HexValue(c) * 16 + Hex.HexNibble(h[1]).value;
      assert Hex.HexValue(a) == Hex.HexValue(b) * 16 + Hex.HexNibble(h[2]).value;
    }
  }

  lemma Hex4Exactly(s: string, v: nat)
    ensures Hex4(s) == Some(v) <==> |s| >= 4 && IsUnit(s[..4]) && Hex.HexValue(s[..4]) == v
  {
    hide Hex.HexNibble, Hex.AllHex, Hex.HexValue;
    if |s| >= 4 { HexFour(s[..4]); }
  }

  lemma UnitReads(h: string, rest: string)
    requires IsUnit(h)
    ensures Hex4(h + rest) == Some(Hex.HexValue(h))
  {
    assert (h + rest)[..4] == h;
    Hex4Exactly(h + rest, Hex.HexValue(h));
  }

  // ---- Every spelling is read -----------------------------------------------

  lemma ShortReads(c: char, rest: string)
    requires ShortLetter(c).Some?
    ensures ParseEscape([ShortLetter(c).value] + rest) == Parsed(c, rest)
  {
    assert ([ShortLetter(c).value] + rest)[1..] == rest;
  }

  lemma SurrogatesOf(c: char)
    requires c as int >= 0x1_0000
    ensures var u := Utf16(c);
            && 0xD800 <= u[0] < 0xDC00 <= u[1] < 0xE000
            && (0x1_0000 + (u[0] - 0xD800) * 1024 + (u[1] - 0xDC00)) == c as int
  {}

  lemma UnitsRead(hex: seq<string>, c: char, rest: string)
    requires IsPiece(Units(hex, c))
    ensures ParseEscape(PieceThen(Units(hex, c), rest)[1..]) == Parsed(c, rest)
  {
    hide Hex4, Hex.AllHex, Hex.HexValue;
    var all := PieceThen(Units(hex, c), rest)[1..];
    if |hex| == 1 {
      assert all[0] == 'u' && all[1..] == hex[0] + rest && all[5..] == rest;
      UnitReads(hex[0], rest);
    } else {
      SurrogatesOf(c);
      var more := "\\u" + (hex[1] + rest);
      assert all[0] == 'u' && all[1..] == hex[0] + more && all[5] == '\\' && all[6] == 'u';
      assert all[7..] == hex[1] + rest && all[11..] == rest;
      UnitReads(hex[0], more);
      UnitReads(hex[1], rest);
    }
  }

  /** A string with one more character in front. */
  function WithFirst(c: char, r: Parsed<string>): Parsed<string> {
    match r case Bad => Bad case Parsed(s, rest) => Parsed([c] + s, rest)
  }

  lemma PieceReads(p: Piece, rest: string)
    requires IsPiece(p)
    ensures ParseString(PieceThen(p, rest)) == WithFirst(p.c, ParseString(rest))
  {
    hide ParseEscape, ShortLetter, Utf16, Hex.AllHex, Hex.HexValue;
    var all := PieceThen(p, rest);
    match p {
      case Raw(c) => assert all[1..] == rest;
      case Short(c) =>
        assert all[0] == '\\' && all[1..] == [ShortLetter(c).value] + rest;
        ShortReads(c, rest);
      case Units(hex, c) =>
        assert all[0] == '\\';
        UnitsRead(hex, c, rest);
    }
  }

  predicate ArePieces(ps: seq<Piece>) {
    forall i :: 0 <= i < |ps| ==> IsPiece(ps[i])
  }

  /** The pieces, the closing quote, then more text. */
  function PiecesThen(ps: seq<Piece>, rest: string): string
    requires ArePieces(ps)
  {
    if ps == [] then "\"" + rest else PieceThen(ps[0], PiecesThen(ps[1..], rest))
  }

  function CharsOf(ps: seq<Piece>): string {
    if ps == [] then "" else [ps[0].c] + CharsOf(ps[1..])
  }

  lemma {:induction false} PiecesRead(ps: seq<Piece>, rest: string)
    requires ArePieces(ps)
    ensures ParseString(PiecesThen(ps, rest)) == Parsed(CharsOf(ps), rest)
  {
    hide IsPiece, PieceThen;
    if ps == [] {
      assert ("\"" + rest)[1..] == rest;
    } else {
      hide ParseString;
      PieceReads(ps[0], PiecesThen(ps[1..], rest));
      PiecesRead(ps[1..], rest);
    }
  }

  // ---- Whatever is read is spelled ------------------------------------------

  lemma PairIsSurrogates(p: nat, q: nat)
    requires 0xD800 <= p < 0xDC00 <= q < 0xE000
    ensures var n := 0x1_0000 + (p - 0xD800) * 1024 + (q - 0xDC00);
            0x1_0000 <= n < 0x11_0000 && Utf16(n as char) == [p, q]
  {}

  lemma EscapeIsSpelled(s: string) returns (p: Piece)
    requires ParseEscape(s).Parsed?
    ensures IsPiece(p) && p.c == ParseEscape(s).value && "\\" + s == PieceThen(p, ParseEscape(s).rest)
  {
    hide Hex4, Hex.AllHex, Hex.HexValue;
    var c, rest := ParseEscape(s).value, ParseEscape(s).rest;
    if s[0] == 'u' {
      var n := Hex4(s[1..]).value;
      Hex4Exactly(s[1..], n);
      if n < 0xD800 || n >= 0xE000 {
        p := Units([s[1..][..4]], c);
        assert s == "u" + (s[1..][..4] + s[5..]);
        assert "\\" + ("u" + (s[1..][..4] + s[5..])) == "\\u" + (s[1..][..4] + s[5..]);
      } else {
        var m := Hex4(s[7..]).value;
        Hex4Exactly(s[7..], m);
        PairIsSurrogates(n, m);
        var high, low := s[1..][..4], s[7..][..4];
        p := Units([high, low], c);
        assert s == "u" + (high + ("\\u" + (low + s[11..])));
        assert "\\" + ("u" + (high + ("\\u" + (low + s[11..])))) == "\\u" + (high + ("\\u" + (low + s[11..])));
      }
    } else {
      p := Short(c);
      assert ShortLetter(c) == Some(s[0]);
      assert s == [s[0]] + rest;
    }
  }

  lemma {:induction false} StringIsSpelled(s: string) returns (ps: seq<Piece>)
    requires ParseString(s).Parsed?
    ensures ArePieces(ps) && CharsOf(ps) == ParseString(s).value && s == PiecesThen(ps, ParseString(s).rest)
    decreases |s|
  {
    hide ParseEscape, IsPiece, PieceThen;
    if s[0] == '"' {
      ps := [];
      assert s == "\"" + s[1..];
    } else if s[0] == '\\' {
      var t := ParseEscape(s[1..]).rest;
      var more := StringIsSpelled(t);
      var p := EscapeIsSpelled(s[1..]);
      ps := [p] + more;
      assert ps[1..] == more;
      assert s == "\\" + s[1..];
    } else {
      var more := StringIsSpelled(s[1..]);
      ps := [Raw(s[0])] + more;
      assert ps[1..] == more;
      RawIsPiece(s[0], s[1..]);
    }
  }

  lemma RawIsPiece(c: char, rest: string)
    requires c as int >= 0x20 && c != '"' && c != '\\'
    ensures IsPiece(Raw(c)) && PieceThen(Raw(c), rest) == [c] + rest
  {}

  /** The parser takes a string exactly in its spellings, and as what they spell. */
  lemma StringExactly(s: string, text: string, rest: string)
    ensures ParseString(s) == Parsed(text, rest)
       <==> exists ps :: ArePieces(ps) && CharsOf(ps) == text && s == PiecesThen(ps, rest)
  {
    hide ParseString, IsPiece, PieceThen, PiecesThen, CharsOf;
    if ParseString(s) == Parsed(text, rest) {
      var ps := StringIsSpelled(s);
    }
    forall ps | ArePieces(ps) && CharsOf(ps) == text && s == PiecesThen(ps, rest)
      ensures ParseString(s) == Parsed(text, rest)
    {
      PiecesRead(ps, rest);
    }
  }

  // ---- Numbers --------------------------------------------------------------

  /** Digits without a leading zero are those of their value. */
  lemma PlainDigits(d: string)
    requires d != "" && AllDigits(d) && (|d| == 1 || d[0] != '0')
    ensures d == Decimal(ValueOf(d))
  {
    hide ValueOf, Decimal;
    PadOfValue(d);
  }

  /** A number is taken exactly as its decimal digits, without leading zeros, up to
      what cannot belong to a number; a fraction, an exponent and what does not fit
      in 64 bits are refused. */
  lemma NumberExactly(s: string, v: Json, rest: string)
    ensures ParseNumber(s) == Parsed(v, rest) <==> v.Num? && s == Decimal(v.n) + rest && EndsValue(rest)
  {
    hide ValueOf, Decimal;
    if v.Num? && s == Decimal(v.n) + rest && EndsValue(rest) { NumberParses(v.n, rest); }
    if ParseNumber(s) == Parsed(v, rest) { PlainDigits(s[..DigitRun(s)]); }
  }

  lemma NegativeExactly(s: string, v: Json, rest: string)
    ensures ParseNegative(s) == Parsed(v, rest) <==> v.Neg? && s == Decimal(v.size) + rest && EndsValue(rest)
  {
    hide ValueOf, Decimal;
    if v.Neg? && s == Decimal(v.size) + rest && EndsValue(rest) { NegativeParses(v.size, rest); }
    if ParseNegative(s) == Parsed(v, rest) { PlainDigits(s[..DigitRun(s)]); }
  }
}
