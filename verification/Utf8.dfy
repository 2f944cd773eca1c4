/** UTF-8, as the journal file stores text and `BufRead::lines` checks it
    (RFC 3629). Dafny's `char` is a Unicode scalar value, like Rust's. */
module Utf8 {
  import opened Basics
  import opened Text

  function EncodeChar(c: char): (e: bytes)
    ensures 1 <= |e| <= 4
  {
    var p := c as int;
    if p < 0x80 then [p as byte]
    else if p < 0x800 then [(0xC0 + p / 64) as byte, (0x80 + p % 64) as byte]
    else if p < 0x1_0000 then [(0xE0 + p / 4096) as byte, (0x80 + p / 64 % 64) as byte, (0x80 + p % 64) as byte]
    else [(0xF0 + p / 262_144) as byte, (0x80 + p / 4096 % 64) as byte, (0x80 + p / 64 % 64) as byte,
      (0x80 + p % 64) as byte]
  }

  function Encode(s: string): bytes {
    if s == "" then [] else EncodeChar(s[0]) + Encode(s[1..])
  }

  predicate Continuation(b: byte) {
    0x80 <= b < 0xC0
  }

  /** How many bytes a lead byte announces; 0 for a byte that cannot lead. */
  function Announced(b: byte): nat {
    if b < 0x80 then 1
    else if 0xC2 <= b < 0xE0 then 2
    else if 0xE0 <= b < 0xF0 then 3
    else if 0xF0 <= b < 0xF5 then 4
    else 0
  }

  function LowBits(b: byte): nat {
    if b >= 0x80 then b as int - 0x80 else 0
  }

  function CodePoint(bs: bytes, n: nat): int
    requires n <= |bs| && 1 <= n <= 4
  {
    match n
    case 1 => bs[0] as int
    case 2 => (bs[0] as int - 0xC0) * 64 + LowBits(bs[1])
    case 3 => (bs[0] as int - 0xE0) * 4096 + LowBits(bs[1]) * 64 + LowBits(bs[2])
    case _ => (bs[0] as int - 0xF0) * 262_144 + LowBits(bs[1]) * 4096 + LowBits(bs[2]) * 64 + LowBits(bs[3])
  }

  /** Shortest form only, no surrogates, nothing past U+10FFFF. */
  predicate LegalCodePoint(p: int, n: nat) {
    || (n == 1 && 0 <= p < 0x80)
    || (n == 2 && 0x80 <= p < 0x800)
    || (n == 3 && (0x800 <= p < 0xD800 || 0xE000 <= p < 0x1_0000))
    || (n == 4 && 0x1_0000 <= p < 0x11_0000)
  }

  function DecodeChar(bs: bytes): (r: Option<(char, nat)>)
    requires bs != []
    ensures r.Some? ==> 1 <= r.value.1 <= |bs|
  {
    var n := Announced(bs[0]);
    if n == 0 || n > |bs| || !(forall i | 1 <= i < n :: Continuation(bs[i])) then None else
    var p := CodePoint(bs, n);
    if LegalCodePoint(p, n) then Some((p as char, n)) else None
  }

  function Decode(bs: bytes): Option<string> {
    if bs == [] then Some("") else
    match DecodeChar(bs)
    case None => None
    case Some((c, n)) =>
      match Decode(bs[n..])
      case None => None
      case Some(rest) => Some([c] + rest)
  }

  lemma Base64Digits(p: int)
    requires 0 <= p < 0x11_0000
    ensures p == 64 * (p / 64) + p % 64
    ensures p / 64 == 64 * (p / 4096) + p / 64 % 64
    ensures p / 4096 == 64 * (p / 262_144) + p / 4096 % 64
  {}

  lemma EncodedCodePoint(c: char, bs: bytes)
    requires EncodeChar(c) <= bs
    ensures var n := |EncodeChar(c)|;
            && Announced(bs[0]) == n && CodePoint(bs, n) == c as int && LegalCodePoint(c as int, n)
            && forall i :: 1 <= i < n ==> Continuation(bs[i])
  {
    var e := EncodeChar(c);
    Base64Digits(c as int);
    assert forall i :: 0 <= i < |e| ==> bs[i] == e[i];
  }

  lemma DecodeEncodedChar(c: char, rest: bytes)
    ensures DecodeChar(EncodeChar(c) + rest) == Some((c, |EncodeChar(c)|))
  {
    hide EncodeChar, CodePoint, Announced;
    EncodedCodePoint(c, EncodeChar(c) + rest);
  }

  lemma DecodedCodePoint(bs: bytes, n: nat)
    requires bs != [] && n == Announced(bs[0]) && 1 <= n <= |bs|
    requires forall i :: 1 <= i < n ==> Continuation(bs[i])
    requires LegalCodePoint(CodePoint(bs, n), n)
    ensures |EncodeChar(CodePoint(bs, n) as char)| == n
    ensures forall i :: 0 <= i < n ==> EncodeChar(CodePoint(bs, n) as char)[i] == bs[i]
  {
    var p := CodePoint(bs, n);
    assert n >= 2 ==> Continuation(bs[1]);
    assert n >= 3 ==> Continuation(bs[2]);
    assert n >= 4 ==> Continuation(bs[3]);
    Base64Digits(p);
    if n == 2 {
      Unshift(p, bs[0] as int - 0xC0, LowBits(bs[1]));
    } else if n == 3 {
      Unshift(p, (bs[0] as int - 0xE0) * 64 + LowBits(bs[1]), LowBits(bs[2]));
      Unshift(p / 64, bs[0] as int - 0xE0, LowBits(bs[1]));
    } else if n == 4 {
      Unshift(p, (bs[0] as int - 0xF0) * 4096 + LowBits(bs[1]) * 64 + LowBits(bs[2]), LowBits(bs[3]));
      Unshift(p / 64, (bs[0] as int - 0xF0) * 64 + LowBits(bs[1]), LowBits(bs[2]));
      Unshift(p / 4096, bs[0] as int - 0xF0, LowBits(bs[1]));
    }
  }

  lemma Unshift(p: int, hi: int, lo: int)
    requires p == 64 * hi + lo && 0 <= lo < 64
    ensures p / 64 == hi && p % 64 == lo
  {}

  lemma DecodedCharIsEncoded(bs: bytes)
    requires bs != [] && DecodeChar(bs).Some?
    ensures var (c, n) := DecodeChar(bs).value; bs[..n] == EncodeChar(c)
  {
    hide EncodeChar, CodePoint, LegalCodePoint;
    DecodedCodePoint(bs, Announced(bs[0]));
  }

  lemma {:induction false} EncodeAppend(a: string, b: string)
    ensures Encode(a + b) == Encode(a) + Encode(b)
  {
    if a == "" {
      assert a + b == b;
    } else {
      assert (a + b)[1..] == a[1..] + b;
      EncodeAppend(a[1..], b);
    }
  }

  lemma DecodeOneMore(c: char, rest: bytes)
    ensures Decode(EncodeChar(c) + rest) == match Decode(rest) case None => None case Some(t) => Some([c] + t)
  {
    hide EncodeChar, DecodeChar;
    DecodeEncodedChar(c, rest);
    assert (EncodeChar(c) + rest)[|EncodeChar(c)|..] == rest;
  }

  lemma {:induction false} DecodeAfter(s: string, rest: bytes)
    ensures Decode(Encode(s) + rest) == match Decode(rest) case None => None case Some(t) => Some(s + t)
  {
    if s == "" {
      assert Encode(s) + rest == rest;
      assert Decode(rest).Some? ==> s + Decode(rest).value == Decode(rest).value;
    } else {
      hide EncodeChar, Decode, Encode;
      var c, more := s[0], s[1..];
      assert s == [c] + more;
      EncodeCons(c, more);
      Assoc(EncodeChar(c), Encode(more), rest);
      DecodeOneMore(c, Encode(more) + rest);
      DecodeAfter(more, rest);
      if Decode(rest).Some? { Assoc([c], more, Decode(rest).value); }
    }
  }

  lemma DecodeEncode(s: string)
    ensures Decode(Encode(s)) == Some(s)
  {
    DecodeAfter(s, []);
    assert Encode(s) + [] == Encode(s);
    assert s + "" == s;
  }

  lemma EncodeCons(c: char, rest: string)
    ensures Encode([c] + rest) == EncodeChar(c) + Encode(rest)
  {
    hide EncodeChar;
    assert ([c] + rest)[1..] == rest;
  }

  lemma DecodeUnfold(bs: bytes)
    requires bs != [] && Decode(bs).Some?
    ensures DecodeChar(bs).Some?
    ensures var (c, n) := DecodeChar(bs).value; Decode(bs[n..]).Some? && Decode(bs).value == [c] + Decode(bs[n..]).value
  {
    hide DecodeChar;
  }

  lemma {:induction false} EncodeDecode(bs: bytes)
    requires Decode(bs).Some?
    ensures Encode(Decode(bs).value) == bs
  {
    if bs == [] {
    } else {
      DecodeUnfold(bs);
      hide Encode, Decode, EncodeChar, DecodeChar;
      var (c, n) := DecodeChar(bs).value;
      var head, tail := bs[..n], bs[n..];
      assert bs == head + tail;
      DecodedCharIsEncoded(bs);
      EncodeDecode(tail);
      EncodeCons(c, Decode(tail).value);
    }
  }

  // ---- Cutting encoded text -------------------------------------------------

  /** `str::is_char_boundary`: byte offset `k` falls between two characters. */
  predicate CharBoundary(s: string, k: nat) {
    k == 0 || (s != "" && k >= |EncodeChar(s[0])| && CharBoundary(s[1..], k - |EncodeChar(s[0])|))
  }

  lemma {:induction false} BoundaryPrefix(s: string, k: nat) returns (j: nat)
    requires k <= |Encode(s)| && CharBoundary(s, k)
    ensures j <= |s| && Encode(s[..j]) == Encode(s)[..k]
    ensures k < |Encode(s)| ==> j < |s|
    ensures k > 0 ==> j > 0
  {
    if k == 0 {
      j := 0;
    } else {
      var e := EncodeChar(s[0]);
      var i := BoundaryPrefix(s[1..], k - |e|);
      j := i + 1;
      assert s[..j][1..] == s[1..][..i];
      assert Encode(s)[..k] == e + Encode(s[1..])[..k - |e|];
    }
  }

  lemma TornCharFails(c: char, k: nat)
    requires 0 < k < |EncodeChar(c)|
    ensures DecodeChar(EncodeChar(c)[..k]) == None
  {}

  /** A prefix of encoded text is itself valid UTF-8 exactly when it was cut
      between characters. */
  lemma {:induction false} PrefixDecodesIff(s: string, k: nat)
    requires k <= |Encode(s)|
    ensures Decode(Encode(s)[..k]).Some? <==> CharBoundary(s, k)
  {
    var bs := Encode(s)[..k];
    if k == 0 {
    } else {
      hide EncodeChar, DecodeChar;
      var e, more := EncodeChar(s[0]), Encode(s[1..]);
      if k < |e| {
        assert bs == e[..k];
        TornCharFails(s[0], k);
      } else {
        hide Decode;
        assert bs == e + more[..k - |e|];
        DecodeOneMore(s[0], more[..k - |e|]);
        PrefixDecodesIff(s[1..], k - |e|);
      }
    }
  }

  /** ASCII text may be cut anywhere. */
  lemma {:induction false} AsciiCutsAnywhere(s: string, k: nat)
    requires (forall c <- s :: c as int < 0x80) && k <= |Encode(s)|
    ensures CharBoundary(s, k)
  {
    if k == 0 {
    } else {
      assert s[0] in s;
      assert forall c <- s[1..] :: c in s;
      AsciiCutsAnywhere(s[1..], k - 1);
    }
  }

  // ---- ASCII bytes inside encoded text --------------------------------------

  lemma EncodedCharBytes(c: char)
    ensures c as int >= 0x80 ==> forall i :: 0 <= i < |EncodeChar(c)| ==> EncodeChar(c)[i] >= 0x80
  {}

  /** An ASCII byte occurs in encoded text only as that character. */
  lemma {:induction false} AsciiByteIsChar(s: string, b: byte)
    requires b < 0x80
    ensures b in Encode(s) <==> (b as int as char) in s
  {
    if s == "" {
    } else {
      EncodedCharBytes(s[0]);
      AsciiByteIsChar(s[1..], b);
      assert s == [s[0]] + s[1..];
    }
  }

  lemma {:induction false} EncodedIsEmpty(s: string)
    ensures Encode(s) == [] <==> s == ""
  {}
}
