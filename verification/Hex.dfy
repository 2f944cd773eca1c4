/** The hex codec of src/hex.rs, and the 32-byte hashes written with it. */
module Hex {
  import opened Basics
  import opened Text

  function HexDigit(v: nat): (c: char)
    requires v < 16
    ensures '0' <= c <= '9' || 'a' <= c <= 'f'
  {
    if v < 10 then (v + '0' as int) as char else (v - 10 + 'a' as int) as char
  }

  function HexNibble(c: char): (r: Option<nat>)
    ensures r.Some? ==> r.value < 16
  {
    if '0' <= c <= '9' then Some(c as int - '0' as int)
    else if 'a' <= c <= 'f' then Some(c as int - 'a' as int + 10)
    else if 'A' <= c <= 'F' then Some(c as int - 'A' as int + 10)
    else None
  }

  predicate AllHex(s: string) {
    forall i :: 0 <= i < |s| ==> HexNibble(s[i]).Some?
  }

  function HexValue(s: string): nat
    requires AllHex(s)
  {
    if s == "" then 0 else HexValue(s[..|s| - 1]) * 16 + HexNibble(s[|s| - 1]).value
  }

  /** The usual hexadecimal of a number. */
  function Hexadecimal(n: nat): (s: string)
    ensures s != ""
  {
    if n < 16 then [HexDigit(n)] else Hexadecimal(n / 16) + [HexDigit(n % 16)]
  }

  lemma {:induction false} HexadecimalValue(n: nat)
    ensures AllHex(Hexadecimal(n)) && HexValue(Hexadecimal(n)) == n
  {
    if n < 16 {
      assert Hexadecimal(n)[..0] == "";
    } else {
      HexadecimalValue(n / 16);
      var more := Hexadecimal(n / 16);
      assert Hexadecimal(n)[..|more|] == more;
    }
  }

  function HexByte(b: byte): string {
    [HexDigit(b as int / 16), HexDigit(b as int % 16)]
  }

  function HexEncode(bs: bytes): (s: string)
    ensures |s| == 2 * |bs|
  {
    if bs == [] then "" else HexByte(bs[0]) + HexEncode(bs[1..])
  }

  function StripHexPrefix(s: string): string {
    if "0x" <= s || "0X" <= s then s[2..] else s
  }

  function DecodePairs(s: string): Option<bytes>
    requires |s| % 2 == 0
  {
    if s == "" then Some([]) else
    match (HexNibble(s[0]), HexNibble(s[1]), DecodePairs(s[2..]))
    case (Some(hi), Some(lo), Some(rest)) => Some([(hi * 16 + lo) as byte] + rest)
    case _ => None
  }

  function HexDecode(s: string): Option<bytes> {
    var body := StripHexPrefix(Trim(s));
    if |body| % 2 != 0 then None else DecodePairs(body)
  }

  method EncodeHex(bs: bytes) returns (out: string)
    ensures out == HexEncode(bs)
  {
    out := "";
    for i := 0 to |bs|
      invariant out == HexEncode(bs[..i])
    {
      EncodeSnoc(bs[..i], bs[i]);
      assert bs[..i + 1] == bs[..i] + [bs[i]];
      out := out + HexByte(bs[i]);
    }
    assert bs[..|bs|] == bs;
  }

  lemma {:induction false} EncodeSnoc(bs: bytes, b: byte)
    ensures HexEncode(bs + [b]) == HexEncode(bs) + HexByte(b)
  {
    if bs == [] {
      assert HexEncode([b]) == HexByte(b) + HexEncode([]);
    } else {
      assert (bs + [b])[1..] == bs[1..] + [b];
      EncodeSnoc(bs[1..], b);
    }
  }

  method DecodeHex(s: string) returns (r: Option<bytes>)
    ensures r == HexDecode(s)
  {
    var body := StripHexPrefix(Trim(s));
    if |body| % 2 != 0 { return None; }
    var out: bytes := [];
    var i := 0;
    assert body[0..] == body;
    PrependNone(DecodePairs(body));
    while i < |body|
      invariant 0 <= i <= |body| && i % 2 == 0
      invariant DecodePairs(body) == PrependAll(out, DecodePairs(body[i..]))
    {
      PairsFrom(body, i);
      var hi := HexNibble(body[i]);
      if hi.None? { return None; }
      var lo := HexNibble(body[i + 1]);
      if lo.None? { return None; }
      PrependTwice(out, [(hi.value * 16 + lo.value) as byte], DecodePairs(body[i + 2..]));
      out := out + [(hi.value * 16 + lo.value) as byte];
      i := i + 2;
    }
    assert body[i..] == "" && out + [] == out;
    return Some(out);
  }

  lemma PairsFrom(body: string, i: nat)
    requires i + 2 <= |body| && i % 2 == 0 && |body| % 2 == 0
    ensures DecodePairs(body[i..]) == match (HexNibble(body[i]), HexNibble(body[i + 1]))
                                      case (Some(hi), Some(lo)) => PrependAll([(hi * 16 + lo) as byte],
                                        DecodePairs(body[i + 2..]))
                                      case _ => None
  {
    var tail := body[i..];
    assert tail[0] == body[i] && tail[1] == body[i + 1] && tail[2..] == body[i + 2..];
  }

  function Lower(c: char): char {
    if 'A' <= c <= 'F' then (c as int - 'A' as int + 'a' as int) as char else c
  }

  function LowerAll(s: string): (t: string)
    ensures |t| == |s|
  {
    seq(|s|, i requires 0 <= i < |s| => Lower(s[i]))
  }

  lemma NibbleIsLowerDigit(c: char, v: nat)
    requires v < 16
    ensures HexNibble(c) == Some(v) <==> Lower(c) == HexDigit(v)
  {}

  lemma PairIsByte(hi: nat, lo: nat, b: byte)
    requires hi < 16 && lo < 16
    ensures (hi * 16 + lo) as byte == b <==> hi == b as int / 16 && lo == b as int % 16
  {}

  lemma {:induction false} PairsSpellExactly(s: string, bs: bytes)
    requires |s| % 2 == 0
    ensures DecodePairs(s) == Some(bs) <==> LowerAll(s) == HexEncode(bs)
  {
    if s == "" || bs == [] {
      assert bs == [] ==> |HexEncode(bs)| == 0;
    } else {
      PairsSpellExactly(s[2..], bs[1..]);
      var b := bs[0];
      NibbleIsLowerDigit(s[0], b as int / 16);
      NibbleIsLowerDigit(s[1], b as int % 16);
      assert LowerAll(s) == [Lower(s[0]), Lower(s[1])] + LowerAll(s[2..]);
      var head, rest := HexByte(b), HexEncode(bs[1..]);
      assert LowerAll(s) == HexEncode(bs) <==>
             Lower(s[0]) == head[0] && Lower(s[1]) == head[1] && LowerAll(s[2..]) == rest by {
        var l, h := LowerAll(s), HexEncode(bs);
        assert l[2..] == LowerAll(s[2..]) && h[2..] == rest && h == [h[0], h[1]] + rest;
        assert l == [l[0], l[1]] + l[2..];
      }
      if DecodePairs(s) == Some(bs) {
        assert bs == [((HexNibble(s[0]).value * 16 + HexNibble(s[1]).value) as byte)] + DecodePairs(s[2..]).value;
        PairIsByte(HexNibble(s[0]).value, HexNibble(s[1]).value, b);
        assert bs[1..] == DecodePairs(s[2..]).value;
      }
      if HexNibble(s[0]) == Some(b as int / 16) && HexNibble(s[1]) == Some(b as int % 16)
         && DecodePairs(s[2..]) == Some(bs[1..]) {
        PairIsByte(b as int / 16, b as int % 16, b);
        assert bs == [b] + bs[1..];
      }
    }
  }

  lemma DecodesStripped(s: string, bs: bytes)
    ensures HexDecode(s) == Some(bs) <==> LowerAll(StripHexPrefix(Trim(s))) == HexEncode(bs)
  {
    hide Trim;
    var body := StripHexPrefix(Trim(s));
    if |body| % 2 == 0 {
      PairsSpellExactly(body, bs);
    } else {
      assert |LowerAll(body)| != |HexEncode(bs)|;
    }
  }

  predicate IsLowerHex(c: char) {
    '0' <= c <= '9' || 'a' <= c <= 'f'
  }

  lemma {:induction false} EncodedDigits(bs: bytes)
    ensures forall c <- HexEncode(bs) :: IsLowerHex(c)
  {
    if bs == [] {
    } else {
      EncodedDigits(bs[1..]);
      forall c | c in HexEncode(bs) ensures IsLowerHex(c) {
        assert c in HexByte(bs[0]) || c in HexEncode(bs[1..]);
      }
    }
  }

  lemma EncodedIsLower(bs: bytes)
    ensures LowerAll(HexEncode(bs)) == HexEncode(bs)
  {
    EncodedDigits(bs);
    var s := HexEncode(bs);
    assert forall i :: 0 <= i < |s| ==> s[i] in s;
  }

  lemma LowerHexIsPlain(s: string)
    requires forall c <- s :: IsLowerHex(c)
    ensures StripHexPrefix(Trim(s)) == s
  {
    hide Trim;
    if s != "" {
      assert s[0] in s && s[|s| - 1] in s;
    }
    TrimIsIdentity(s);
    if |s| >= 2 { assert s[1] in s && s[1] != "0x"[1] && s[1] != "0X"[1]; }
  }

  predicate IsHexPrefix(p: string) {
    p == "" || p == "0x" || p == "0X"
  }

  /** A text that spells the bytes: their digits in letters of either case, perhaps
      behind 0x or 0X, with white space around. */
  ghost predicate SpellsHex(s: string, bs: bytes) {
    exists w, p, t, v ::
      && AllWhite(w) && IsHexPrefix(p) && LowerAll(t) == HexEncode(bs) && AllWhite(v)
      && s == w + (p + t + v)
  }

  lemma SpelledDecodes(w: string, p: string, t: string, v: string, bs: bytes)
    requires AllWhite(w) && IsHexPrefix(p) && LowerAll(t) == HexEncode(bs) && AllWhite(v)
    ensures HexDecode(w + (p + t + v)) == Some(bs)
  {
    hide Trim, HexEncode, DecodePairs, HexDecode, AllWhite, IsWhitespace;
    EncodedDigits(bs);
    forall i | 0 <= i < |t| ensures HexNibble(t[i]).Some? {
      assert LowerAll(t)[i] in HexEncode(bs);
    }
    SpelledIsTrimmed(p, t);
    TrimOf(w, p + t, v);
    assert StripHexPrefix(p + t) == t by {
      if p == "" {
        assert p + t == t;
        if |t| >= 2 { assert HexNibble(t[1]).Some? && HexNibble('x').None? && HexNibble('X').None?; }
      } else {
        assert (p + t)[2..] == t;
      }
    }
    DecodesStripped(w + (p + t + v), bs);
  }

  lemma SpelledIsTrimmed(p: string, t: string)
    requires IsHexPrefix(p) && forall i :: 0 <= i < |t| ==> HexNibble(t[i]).Some?
    ensures Trimmed(p + t)
  {
    if p + t != "" {
      var s := p + t;
      assert s[0] == '0' || HexNibble(s[0]).Some?;
      assert s[|s| - 1] == 'x' || s[|s| - 1] == 'X' || HexNibble(s[|s| - 1]).Some?;
    }
  }

  /** The decoder accepts exactly the texts that spell the bytes. */
  lemma DecodesExactly(s: string, bs: bytes)
    ensures HexDecode(s) == Some(bs) <==> SpellsHex(s, bs)
  {
    hide Trim, HexEncode, HexDecode, AllWhite, LowerAll;
    if SpellsHex(s, bs) {
      var w, p, t, v :| AllWhite(w) && IsHexPrefix(p) && LowerAll(t) == HexEncode(bs) && AllWhite(v)
                        && s == w + (p + t + v);
      SpelledDecodes(w, p, t, v, bs);
    }
    if HexDecode(s) == Some(bs) {
      DecodesStripped(s, bs);
      TrimExactly(s, Trim(s));
      var w, v :| AllWhite(w) && AllWhite(v) && s == w + (Trim(s) + v);
      var t := StripHexPrefix(Trim(s));
      var p := Trim(s)[..|Trim(s)| - |t|];
      assert Trim(s) == p + t && IsHexPrefix(p);
    }
  }

  /** A known answer, so that the digits and their order are what they should be. */
  lemma KnownHex()
    ensures HexEncode([0x01, 0x9a, 0xef]) == "019aef"
    ensures HexDecode(" 0X019AeF ") == Some([0x01, 0x9a, 0xef])
  {
    hide HexDecode;
    var bs: bytes := [0x01, 0x9a, 0xef];
    assert bs == [0x01] + ([0x9a] + ([0xef] + []));
    EncodeCons(0xef, []);
    EncodeCons(0x9a, [0xef] + []);
    EncodeCons(0x01, [0x9a] + ([0xef] + []));
    assert HexByte(0x01) == "01" && HexByte(0x9a) == "9a" && HexByte(0xef) == "ef";
    assert HexEncode([]) == "";
    hide HexEncode, HexByte;
    assert LowerAll("019AeF") == "019aef";
    assert " 0X019AeF " == " " + ("0X" + "019AeF" + " ");
    assert AllWhite(" ");
    SpelledDecodes(" ", "0X", "019AeF", " ", bs);
  }

  lemma EncodeCons(b: byte, rest: bytes)
    ensures HexEncode([b] + rest) == HexByte(b) + HexEncode(rest)
  {
    assert ([b] + rest)[1..] == rest;
  }

  lemma HexRoundTrip(bs: bytes)
    ensures HexDecode(HexEncode(bs)) == Some(bs)
  {
    hide Trim, HexEncode, DecodePairs, HexDecode, LowerAll;
    var s := HexEncode(bs);
    EncodedDigits(bs);
    EncodedIsLower(bs);
    LowerHexIsPlain(s);
    DecodesStripped(s, bs);
  }

  // ---- Hashes ---------------------------------------------------------------

  type Hash = h: bytes | |h| == 32 witness seq(32, _ => 0)

  function ZeroHash(): Hash {
    seq(32, _ => 0)
  }

  function HashHex(h: Hash): string {
    HexEncode(h)
  }

  /** `Hash::from_hex`: exactly 64 hex digits. */
  function HashFromHex(s: string): Option<Hash> {
    if |s| != 64 then None else
    match DecodePairs(s)
    case Some(h) => if |h| == 32 then Some(h) else None
    case None => None
  }

  /** In letters of either case, and nothing around them. */
  lemma HashExactly(s: string, h: Hash)
    ensures HashFromHex(s) == Some(h) <==> LowerAll(s) == HexEncode(h)
  {
    if |s| == 64 { PairsSpellExactly(s, h); }
  }

  lemma HashRoundTrip(h: Hash)
    ensures HashFromHex(HashHex(h)) == Some(h)
  {
    EncodedIsLower(h);
    PairsSpellExactly(HashHex(h), h);
  }
}
