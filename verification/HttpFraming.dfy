/** Which of the three framings a response's headers announce, in any letter case
    (src/http.rs; section 6.3 of RFC 9112). */
module HttpFraming {
  import opened Basics
  import opened Text
  import opened HttpResponse

  // ---- Letters of either case -----------------------------------------------

  predicate SameLetter(c: char, d: char) {
    || c == d
    || ('A' <= c <= 'Z' && d as int == c as int + 32)
    || ('A' <= d <= 'Z' && c as int == d as int + 32)
  }

  /** Equal but for the case of ASCII letters. */
  predicate SameLetters(a: string, b: string) {
    |a| == |b| && forall i :: 0 <= i < |a| ==> SameLetter(a[i], b[i])
  }

  predicate HasNoCapital(s: string) {
    forall c <- s :: !('A' <= c <= 'Z')
  }

  lemma LowerExactly(s: string, t: string)
    requires HasNoCapital(t)
    ensures AsciiLower(s) == t <==> SameLetters(s, t)
  {
    if |s| == |t| {
      forall i | 0 <= i < |s| ensures AsciiLower(s)[i] == t[i] <==> SameLetter(s[i], t[i]) {
        assert t[i] in t;
      }
    }
  }

  /** The word occurs somewhere, in any letter case. */
  ghost predicate Mentions(s: string, word: string) {
    exists x, w, y :: s == x + (w + y) && SameLetters(w, word)
  }

  lemma {:induction false} ContainsExactly(s: string, part: string)
    ensures Contains(s, part) <==> exists x, y :: s == x + (part + y)
  {
    if part <= s {
      assert s == "" + (part + s[|part|..]);
    } else if s != "" {
      ContainsExactly(s[1..], part);
      if Contains(s, part) {
        var x, y :| s[1..] == x + (part + y);
        assert s == ([s[0]] + x) + (part + y);
      }
      forall x, y | s == x + (part + y) ensures Contains(s, part) {
        assert "" + (part + y) == part + y;
        assert part <= part + y;
        assert s[1..] == x[1..] + (part + y);
      }
    }
  }

  lemma MentionsExactly(s: string, word: string)
    requires HasNoCapital(word)
    ensures Contains(AsciiLower(s), word) <==> Mentions(s, word)
  {
    hide Contains, AsciiLower, SameLetters, HasNoCapital;
    ContainsExactly(AsciiLower(s), word);
    LowerLength(s);
    if Contains(AsciiLower(s), word) {
      var x, y :| AsciiLower(s) == x + (word + y);
      var i, j := |x|, |x| + |word|;
      LowerSlice(s, i, j);
      assert AsciiLower(s)[i..j] == word;
      LowerExactly(s[i..j], word);
      assert s == s[..i] + (s[i..j] + s[j..]);
    }
    if Mentions(s, word) {
      var x, w, y :| s == x + (w + y) && SameLetters(w, word);
      LowerExactly(w, word);
      LowerLength(w);
      var i, j := |x|, |x| + |w|;
      assert s[i..j] == w;
      LowerSlice(s, i, j);
      var l := AsciiLower(s);
      assert l == l[..i] + (l[i..j] + l[j..]);
    }
  }

  lemma LowerLength(s: string)
    ensures |AsciiLower(s)| == |s|
  {}

  lemma LowerSlice(s: string, i: nat, j: nat)
    requires i <= j <= |s|
    ensures AsciiLower(s)[i..j] == AsciiLower(s[i..j])
  {}

  // ---- The headers that count -----------------------------------------------

  ghost predicate IsChunkedHeader(h: Header) {
    SameLetters(h.name, "transfer-encoding") && Mentions(h.value, "chunked")
  }

  predicate IsLengthHeader(h: Header) {
    SameLetters(h.name, "content-length")
  }

  ghost predicate AnyChunked(headers: seq<Header>) {
    exists i :: 0 <= i < |headers| && IsChunkedHeader(headers[i])
  }

  predicate FirstLength(headers: seq<Header>, i: nat) {
    i < |headers| && IsLengthHeader(headers[i]) && forall j :: 0 <= j < i ==> !IsLengthHeader(headers[j])
  }

  /** The first content-length, and no later one, spells this number. */
  ghost predicate Announces(headers: seq<Header>, n: u64) {
    exists i: nat :: FirstLength(headers, i) && SpellsU64(headers[i].value, n)
  }

  lemma ChunkedExactly(h: Header)
    ensures SaysChunked(h) <==> IsChunkedHeader(h)
  {
    hide AsciiLower, SameLetters, Mentions, Contains;
    LowerExactly(h.name, "transfer-encoding");
    MentionsExactly(h.value, "chunked");
  }

  lemma LengthNamed(h: Header)
    ensures AsciiLower(h.name) == "content-length" <==> IsLengthHeader(h)
  {
    hide AsciiLower, SameLetters;
    LowerExactly(h.name, "content-length");
  }

  lemma {:induction false} LengthExactly(headers: seq<Header>, n: u64)
    ensures LengthOf(headers) == Some(n) <==> Announces(headers, n)
  {
    hide AsciiLower, IsLengthHeader, ParseU64, SpellsU64;
    if headers == [] {
    } else {
      LengthNamed(headers[0]);
      ParseU64Exactly(headers[0].value, n);
      if IsLengthHeader(headers[0]) {
        assert FirstLength(headers, 0);
      } else {
        LengthExactly(headers[1..], n);
        if Announces(headers[1..], n) {
          var i: nat :| FirstLength(headers[1..], i) && SpellsU64(headers[1..][i].value, n);
          FirstLater(headers, i);
          assert headers[i + 1] == headers[1..][i];
        }
        if Announces(headers, n) {
          var i: nat :| FirstLength(headers, i) && SpellsU64(headers[i].value, n);
          FirstLater(headers, i - 1);
          assert headers[i] == headers[1..][i - 1];
        }
      }
    }
  }

  lemma FirstLater(headers: seq<Header>, i: nat)
    requires headers != [] && !IsLengthHeader(headers[0])
    ensures FirstLength(headers[1..], i) <==> FirstLength(headers, i + 1)
  {
    hide IsLengthHeader;
    var rest := headers[1..];
    if i < |rest| {
      assert rest[i] == headers[i + 1];
      if FirstLength(headers, i + 1) {
        forall j | 0 <= j < i ensures !IsLengthHeader(rest[j]) { assert rest[j] == headers[j + 1]; }
      }
      if FirstLength(rest, i) {
        forall j | 0 <= j < i + 1 ensures !IsLengthHeader(headers[j]) {
          if j > 0 { assert headers[j] == rest[j - 1]; }
        }
      }
    }
  }

  /** A transfer-encoding that mentions "chunked" wins, whatever lengths are beside
      it; then the first content-length decides, if it is a number; and otherwise
      the body runs to the end of the stream. */
  lemma FramingExactly(headers: seq<Header>, n: u64)
    ensures FramingOf(headers) == ByChunks <==> AnyChunked(headers)
    ensures FramingOf(headers) == ByLength(n) <==> !AnyChunked(headers) && Announces(headers, n)
    ensures FramingOf(headers) == ToEnd <==> !AnyChunked(headers) && forall m: u64 :: !Announces(headers, m)
  {
    hide IsChunkedHeader, SaysChunked, LengthOf, Announces;
    forall h ensures SaysChunked(h) <==> IsChunkedHeader(h) { ChunkedExactly(h); }
    forall m: u64 ensures LengthOf(headers) == Some(m) <==> Announces(headers, m) { LengthExactly(headers, m); }
    if exists h <- headers :: SaysChunked(h) {
      var h :| h in headers && SaysChunked(h);
      var i :| 0 <= i < |headers| && headers[i] == h;
    }
  }
}
