/** Strings as Rust's `char` sequences: ordering, decimal numbers as the
    formatting and parsing of the standard library write and read them, and
    trimming. */
module Text {
  import opened Basics

  lemma Assoc<T>(a: seq<T>, b: seq<T>, c: seq<T>)
    ensures a + b + c == a + (b + c)
  {}

  /** A sequence in front of a result that may be missing. */
  function PrependAll<T>(a: seq<T>, r: Option<seq<T>>): Option<seq<T>> {
    match r case None => None case Some(b) => Some(a + b)
  }

  lemma PrependNone<T>(r: Option<seq<T>>)
    ensures PrependAll([], r) == r
  {
    if r.Some? { assert [] + r.value == r.value; }
  }

  lemma PrependTwice<T>(a: seq<T>, b: seq<T>, r: Option<seq<T>>)
    ensures PrependAll(a, PrependAll(b, r)) == PrependAll(a + b, r)
  {
    if r.Some? { Assoc(a, b, r.value); }
  }

  lemma DropThenSlice<T>(s: seq<T>, n: nat, i: nat, j: nat)
    requires n <= |s| && i <= j <= |s| - n
    ensures s[n..][i..j] == s[n + i..n + j]
  {}

  lemma SplitAt<T>(s: seq<T>, i: nat, j: nat)
    requires i <= j <= |s|
    ensures s[i..] == s[i..j] + s[j..]
  {}

  // ---- Lexical order --------------------------------------------------------

  /** `<` on `str`: UTF-8 byte order and code-point order agree. */
  predicate LexLess(a: string, b: string) {
    b != "" && (a == "" || a[0] < b[0] || (a[0] == b[0] && LexLess(a[1..], b[1..])))
  }

  lemma {:induction false} LexAsymmetric(a: string, b: string)
    ensures !(LexLess(a, b) && LexLess(b, a))
  {
    if a == "" || b == "" || a[0] != b[0] {
    } else {
      LexAsymmetric(a[1..], b[1..]);
    }
  }

  lemma {:induction false} LexTransitive(a: string, b: string, c: string)
    requires LexLess(a, b) && LexLess(b, c)
    ensures LexLess(a, c)
  {
    if a == "" || a[0] < b[0] || b[0] < c[0] {
    } else {
      LexTransitive(a[1..], b[1..], c[1..]);
    }
  }

  lemma {:induction false} LexTotal(a: string, b: string)
    ensures LexLess(a, b) || a == b || LexLess(b, a)
  {
    if a == "" || b == "" || a[0] != b[0] {
    } else {
      LexTotal(a[1..], b[1..]);
      assert a == [a[0]] + a[1..] && b == [b[0]] + b[1..];
    }
  }

  lemma {:induction false} LexByPrefix(a: string, b: string, x: string, y: string)
    requires |a| == |b| && LexLess(a, b)
    ensures LexLess(a + x, b + y)
  {
    assert a + x == [a[0]] + (a[1..] + x) && b + y == [b[0]] + (b[1..] + y);
    if a[0] != b[0] {
    } else {
      LexByPrefix(a[1..], b[1..], x, y);
    }
  }

  lemma {:induction false} LexAfterPrefix(p: string, x: string, y: string)
    requires LexLess(x, y)
    ensures LexLess(p + x, p + y)
  {
    if p == "" {
      assert p + x == x && p + y == y;
    } else {
      assert p + x == [p[0]] + (p[1..] + x) && p + y == [p[0]] + (p[1..] + y);
      LexAfterPrefix(p[1..], x, y);
    }
  }

  /** The text ends where the other goes on, or has the smaller character there. */
  predicate Precedes(x: string, y: string) {
    y != "" && (x == "" || x[0] < y[0])
  }

  lemma {:induction false} LexSplits(a: string, b: string) returns (p: string, x: string, y: string)
    requires LexLess(a, b)
    ensures a == p + x && b == p + y && Precedes(x, y)
  {
    if a == "" || a[0] < b[0] {
      p, x, y := "", a, b;
    } else {
      p, x, y := LexSplits(a[1..], b[1..]);
      p := [a[0]] + p;
    }
  }

  /** One text is before another exactly when, behind what they share, it precedes. */
  lemma LexExactly(a: string, b: string)
    ensures LexLess(a, b) <==> exists p, x, y :: a == p + x && b == p + y && Precedes(x, y)
  {
    if LexLess(a, b) {
      var p, x, y := LexSplits(a, b);
    }
    forall p, x, y | a == p + x && b == p + y && Precedes(x, y) ensures LexLess(a, b) {
      LexAfterPrefix(p, x, y);
    }
  }

  /** Three fixed-width fields compare most significant first. */
  lemma LexFields(x: string, m: string, r: string, y: string, n: string, t: string, sep: string)
    requires |x| == |y| && |m| == |n|
    requires LexLess(x, y) || (x == y && (LexLess(m, n) || (m == n && LexLess(r, t))))
    ensures LexLess(x + sep + m + sep + r, y + sep + n + sep + t)
  {
    var mr, nt := m + (sep + r), n + (sep + t);
    assert x + sep + m + sep + r == x + (sep + mr) == (x + sep) + mr;
    assert y + sep + n + sep + t == y + (sep + nt) == (y + sep) + nt;
    if LexLess(x, y) {
      LexByPrefix(x, y, sep + mr, sep + nt);
    } else if LexLess(m, n) {
      LexByPrefix(m, n, sep + r, sep + t);
      LexAfterPrefix(x + sep, mr, nt);
    } else {
      LexAfterPrefix(m + sep, r, t);
      assert mr == m + sep + r && nt == m + sep + t;
      LexAfterPrefix(x + sep, mr, nt);
    }
  }

  // ---- Decimal digits -------------------------------------------------------

  predicate IsDigit(c: char) {
    '0' <= c <= '9'
  }

  function DigitValue(c: char): (v: nat)
    requires IsDigit(c)
    ensures v < 10
  {
    (c as int) - ('0' as int)
  }

  function DigitChar(v: nat): (c: char)
    requires v < 10
    ensures IsDigit(c) && DigitValue(c) == v
  {
    (v + '0' as int) as char
  }

  predicate AllDigits(s: string) {
    forall i :: 0 <= i < |s| ==> IsDigit(s[i])
  }

  /** The number a run of digits denotes, read left to right. */
  function ValueOf(s: string): nat
    requires AllDigits(s)
  {
    if s == "" then 0
    else ValueOf(s[..|s| - 1]) * 10 + DigitValue(s[|s| - 1])
  }

  lemma ValueOfSnoc(s: string, c: char)
    requires AllDigits(s) && IsDigit(c)
    ensures AllDigits(s + [c]) && ValueOf(s + [c]) == ValueOf(s) * 10 + DigitValue(c)
  {
    assert (s + [c])[..|s|] == s;
  }

  lemma {:induction false} ValueOfNonzero(s: string)
    requires s != "" && AllDigits(s) && s[0] != '0'
    ensures ValueOf(s) > 0
  {
    if |s| == 1 {
      assert s[..0] == "";
    } else {
      ValueOfNonzero(s[..|s| - 1]);
    }
  }

  function Pow10(w: nat): (p: nat)
    ensures p >= 1
  {
    if w == 0 then 1 else 10 * Pow10(w - 1)
  }

  /** `to_string` on an unsigned integer. */
  function Decimal(n: nat): (s: string)
    ensures s != "" && AllDigits(s)
  {
    if n < 10 then [DigitChar(n)] else Decimal(n / 10) + [DigitChar(n % 10)]
  }

  lemma {:induction false} DecimalValue(n: nat)
    ensures ValueOf(Decimal(n)) == n
  {
    if n < 10 {
      assert Decimal(n)[..0] == "";
    } else {
      DecimalValue(n / 10);
      ValueOfSnoc(Decimal(n / 10), DigitChar(n % 10));
    }
  }

  lemma {:induction false} DecimalLength(n: nat, w: nat)
    requires w >= 1
    ensures |Decimal(n)| <= w <==> n < Pow10(w)
  {
    if n < 10 || w <= 1 {
    } else {
      DecimalLength(n / 10, w - 1);
    }
  }

  lemma {:induction false} DecimalHasNoLeadingZero(n: nat)
    ensures n > 0 ==> Decimal(n)[0] != '0'
    ensures n == 0 ==> Decimal(n) == "0"
  {
    if n < 10 {
    } else {
      DecimalHasNoLeadingZero(n / 10);
    }
  }

  function Zeros(k: nat): (s: string)
    ensures |s| == k && AllDigits(s)
  {
    seq(k, _ => '0')
  }

  /** `{:0w}` on an unsigned integer. */
  function Pad(n: nat, w: nat): (s: string)
    ensures AllDigits(s) && |s| >= w
  {
    var d := Decimal(n);
    if |d| >= w then d else Zeros(w - |d|) + d
  }

  lemma {:induction false} LeadingZeros(k: nat, s: string)
    requires AllDigits(s)
    ensures AllDigits(Zeros(k) + s) && ValueOf(Zeros(k) + s) == ValueOf(s)
  {
    if s == "" {
      assert Zeros(k) + s == Zeros(k);
      if k > 0 {
        LeadingZeros(k - 1, s);
        assert Zeros(k)[..k - 1] == Zeros(k - 1) == Zeros(k - 1) + s;
      }
    } else {
      LeadingZeros(k, s[..|s| - 1]);
      assert (Zeros(k) + s)[..k + |s| - 1] == Zeros(k) + s[..|s| - 1];
    }
  }

  lemma PadValue(n: nat, w: nat)
    ensures ValueOf(Pad(n, w)) == n
  {
    DecimalValue(n);
    LeadingZeros(if |Decimal(n)| >= w then 0 else w - |Decimal(n)|, Decimal(n));
    assert Zeros(0) + Decimal(n) == Decimal(n);
  }

  lemma PadLength(n: nat, w: nat)
    requires w >= 1
    ensures |Pad(n, w)| == w <==> n < Pow10(w)
  {
    DecimalLength(n, w);
  }

  /** Among digit strings of one length, the value orders and identifies. */
  lemma {:induction false} DigitOrder(a: string, b: string)
    requires |a| == |b| && AllDigits(a) && AllDigits(b)
    ensures ValueOf(a) < ValueOf(b) ==> LexLess(a, b)
    ensures ValueOf(a) == ValueOf(b) ==> a == b
  {
    if a == "" {
    } else {
      var n := |a| - 1;
      var a', b' := a[..n], b[..n];
      DigitOrder(a', b');
      assert a == a' + [a[n]] && b == b' + [b[n]];
      if ValueOf(a') < ValueOf(b') {
        LexByPrefix(a', b', [a[n]], [b[n]]);
      } else if ValueOf(a') == ValueOf(b') && a[n] < b[n] {
        LexAfterPrefix(a', [a[n]], [b[n]]);
      }
    }
  }

  lemma {:induction false} ValueBound(s: string)
    requires AllDigits(s)
    ensures ValueOf(s) < Pow10(|s|)
  {
    if s == "" {
    } else {
      ValueBound(s[..|s| - 1]);
    }
  }

  /** A digit string is the padding of its own value. */
  lemma PadOfValue(s: string)
    requires s != "" && AllDigits(s)
    ensures Pad(ValueOf(s), |s|) == s
  {
    ValueBound(s);
    PadLength(ValueOf(s), |s|);
    PadValue(ValueOf(s), |s|);
    DigitOrder(Pad(ValueOf(s), |s|), s);
  }

  lemma PadOrder(n: nat, m: nat, w: nat)
    requires w >= 1 && n < m < Pow10(w)
    ensures LexLess(Pad(n, w), Pad(m, w))
  {
    PadLength(n, w);
    PadLength(m, w);
    PadValue(n, w);
    PadValue(m, w);
    DigitOrder(Pad(n, w), Pad(m, w));
  }

  lemma PadInjective(n: nat, m: nat, w: nat)
    requires Pad(n, w) == Pad(m, w)
    ensures n == m
  {
    PadValue(n, w);
    PadValue(m, w);
  }

  /** `str::parse::<u64>`: an optional plus sign, then digits, without overflow. */
  function ParseU64(s: string): Option<u64> {
    var d := if s != "" && s[0] == '+' then s[1..] else s;
    if d == "" || !AllDigits(d) || ValueOf(d) >= U64_LIMIT then None else Some(ValueOf(d))
  }

  lemma ParseU64OfDecimal(n: u64)
    ensures ParseU64(Decimal(n)) == Some(n)
  {
    DecimalValue(n);
    assert IsDigit(Decimal(n)[0]);
  }

  /** The decimal digits of the number, with any leading zeros and perhaps a plus
      sign. */
  ghost predicate SpellsU64(s: string, n: u64) {
    exists z: nat :: s == Zeros(z) + Decimal(n) || s == "+" + (Zeros(z) + Decimal(n))
  }

  lemma ParseU64Exactly(s: string, n: u64)
    ensures ParseU64(s) == Some(n) <==> SpellsU64(s, n)
  {
    hide Decimal, ValueOf;
    forall z: nat | s == Zeros(z) + Decimal(n) || s == "+" + (Zeros(z) + Decimal(n)) ensures ParseU64(s) == Some(n) {
      var d := Zeros(z) + Decimal(n);
      DecimalValue(n);
      LeadingZeros(z, Decimal(n));
      assert IsDigit(d[0]);
      if s != d { assert s[1..] == d; }
    }
    if ParseU64(s) == Some(n) {
      var d := if s[0] == '+' then s[1..] else s;
      assert s == d || s == "+" + d;
      PadOfValue(d);
      var z := if |Decimal(n)| >= |d| then 0 else |d| - |Decimal(n)|;
      assert Zeros(0) + Decimal(n) == Decimal(n);
      assert d == Zeros(z) + Decimal(n);
    }
  }

  // ---- White space ----------------------------------------------------------

  /** The Unicode White_Space property, which `str::trim` uses. */
  predicate IsWhitespace(c: char) {
    var p := c as int;
    || 0x09 <= p <= 0x0D || p == 0x20 || p == 0x85 || p == 0xA0 || p == 0x1680
    || 0x2000 <= p <= 0x200A || p == 0x2028 || p == 0x2029 || p == 0x202F || p == 0x205F || p == 0x3000
  }

  function TrimStart(s: string): (t: string)
    ensures t != "" ==> !IsWhitespace(t[0])
    ensures t == "" <==> forall i :: 0 <= i < |s| ==> IsWhitespace(s[i])
  {
    if s == "" || !IsWhitespace(s[0]) then s else TrimStart(s[1..])
  }

  function TrimEnd(s: string): (t: string)
    ensures t <= s
    ensures t != "" ==> !IsWhitespace(t[|t| - 1])
  {
    if s == "" || !IsWhitespace(s[|s| - 1]) then s else TrimEnd(s[..|s| - 1])
  }

  function Trim(s: string): string {
    TrimEnd(TrimStart(s))
  }

  lemma TrimIsIdentity(s: string)
    requires s != "" ==> !IsWhitespace(s[0]) && !IsWhitespace(s[|s| - 1])
    ensures Trim(s) == s
  {}

  predicate AllWhite(s: string) {
    forall c <- s :: IsWhitespace(c)
  }

  /** No white space at either end. */
  predicate Trimmed(s: string) {
    s != "" ==> !IsWhitespace(s[0]) && !IsWhitespace(s[|s| - 1])
  }

  lemma {:induction false} TrimStartWhite(w: string, x: string)
    requires AllWhite(w)
    ensures TrimStart(w + x) == TrimStart(x)
  {
    hide IsWhitespace;
    if w == "" {
      assert w + x == x;
    } else {
      assert w[0] in w && (w + x)[1..] == w[1..] + x;
      TrimStartWhite(w[1..], x);
    }
  }

  lemma {:induction false} TrimEndWhite(x: string, v: string)
    requires AllWhite(v)
    ensures TrimEnd(x + v) == TrimEnd(x)
  {
    hide IsWhitespace;
    if v == "" {
      assert x + v == x;
    } else {
      var n := |v| - 1;
      assert v[n] in v && (x + v)[..|x + v| - 1] == x + v[..n] && (x + v)[|x + v| - 1] == v[n];
      TrimEndWhite(x, v[..n]);
    }
  }

  lemma TrimOf(w: string, t: string, v: string)
    requires AllWhite(w) && AllWhite(v) && Trimmed(t)
    ensures Trim(w + (t + v)) == t
  {
    hide IsWhitespace;
    TrimStartWhite(w, t + v);
    if t == "" {
      assert t + v == v + "";
      TrimStartWhite(v, "");
    } else {
      assert (t + v)[0] == t[0];
      TrimEndWhite(t, v);
    }
  }

  lemma {:induction false} TrimStartSplits(s: string) returns (w: string)
    ensures AllWhite(w) && s == w + TrimStart(s)
  {
    hide IsWhitespace;
    if s == "" || !IsWhitespace(s[0]) {
      w := "";
    } else {
      w := TrimStartSplits(s[1..]);
      w := [s[0]] + w;
    }
  }

  lemma {:induction false} TrimEndSplits(s: string) returns (v: string)
    ensures AllWhite(v) && s == TrimEnd(s) + v
  {
    hide IsWhitespace;
    if s == "" || !IsWhitespace(s[|s| - 1]) {
      v := "";
    } else {
      v := TrimEndSplits(s[..|s| - 1]);
      v := v + [s[|s| - 1]];
    }
  }

  /** Trimming takes all the white space off both ends, and nothing else. */
  lemma TrimExactly(s: string, t: string)
    ensures Trim(s) == t <==> Trimmed(t) && exists w, v :: AllWhite(w) && AllWhite(v) && s == w + (t + v)
  {
    hide IsWhitespace, TrimStart, TrimEnd, Trim, AllWhite, Trimmed;
    forall w, v | AllWhite(w) && AllWhite(v) && s == w + (t + v) && Trimmed(t) ensures Trim(s) == t {
      TrimOf(w, t, v);
    }
    var w := TrimStartSplits(s);
    var v := TrimEndSplits(TrimStart(s));
    TrimIsTrimmed(s);
    assert s == w + (Trim(s) + v) by { TrimUnfold(s); }
  }

  lemma TrimUnfold(s: string)
    ensures Trim(s) == TrimEnd(TrimStart(s))
  {}

  lemma TrimIsTrimmed(s: string)
    ensures Trimmed(Trim(s))
  {
    hide IsWhitespace;
  }

  predicate IsBlank(s: string) {
    Trim(s) == ""
  }

  lemma BlankMeansAllWhitespace(s: string)
    ensures IsBlank(s) <==> forall i :: 0 <= i < |s| ==> IsWhitespace(s[i])
  {
    var t := TrimStart(s);
    if t != "" {
      var u := TrimEnd(t);
      if u == "" { TrimEndEmpty(t); }
    }
  }

  lemma {:induction false} TrimEndEmpty(s: string)
    requires TrimEnd(s) == ""
    ensures forall i :: 0 <= i < |s| ==> IsWhitespace(s[i])
  {
    if s == "" {
    } else {
      TrimEndEmpty(s[..|s| - 1]);
    }
  }
}
