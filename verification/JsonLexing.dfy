/** What cutting or joining JSON text does to its readability. A lexer that
    tracks only string mode and nesting is run over everything the parser
    accepts: an object document is nested all the way through. Hence a printed
    object cut short never reads, and neither does text with a printed object
    glued to its end. */
module JsonLexing {
  import opened Basics
  import opened Text
  import opened Json
  import opened JsonRoundTrip

  datatype Lex = Out(depth: int) | In(depth: int) | Esc(depth: int) | Dead

  /** Characters JSON allows between strings and brackets: space, separators,
      digits, signs and the letters of true, false and null. */
  predicate PlainOutside(c: char) {
    IsSpace(c) || IsDigit(c) || c in ",:-truefalsn"
  }

  function Step(st: Lex, c: char): Lex {
    match st
    case Out(d) =>
      if c == '"' then In(d)
      else if c == '{' || c == '[' then Out(d + 1)
      else if c == '}' || c == ']' then Out(d - 1)
      else if PlainOutside(c) then Out(d)
      else Dead
    case In(d) => if c == '"' then Out(d) else if c == '\\' then Esc(d) else In(d)
    case Esc(d) => In(d)
    case Dead => Dead
  }

  function Scan(st: Lex, s: string): Lex
    decreases s
  {
    if s == "" then st else Scan(Step(st, s[0]), s[1..])
  }

  /** The nesting never drops below `d` while `s` is read. */
  predicate Above(st: Lex, d: int, s: string)
    decreases s
  {
    !st.Dead? && st.depth >= d && (s == "" || Above(Step(st, s[0]), d, s[1..]))
  }

  predicate Balanced(s: string, d: int) {
    Scan(Out(d), s) == Out(d) && Above(Out(d), d, s)
  }

  lemma {:induction false} ScanAppend(st: Lex, a: string, b: string)
    ensures Scan(st, a + b) == Scan(Scan(st, a), b)
    decreases a
  {
    if a == "" {
      assert a + b == b;
    } else {
      assert (a + b)[1..] == a[1..] + b;
      ScanAppend(Step(st, a[0]), a[1..], b);
    }
  }

  lemma {:induction false} AboveAppend(st: Lex, d: int, a: string, b: string)
    requires Above(st, d, a) && Above(Scan(st, a), d, b)
    ensures Above(st, d, a + b)
    decreases a
  {
    if a == "" {
      assert a + b == b;
    } else {
      assert (a + b)[1..] == a[1..] + b;
      AboveAppend(Step(st, a[0]), d, a[1..], b);
    }
  }

  lemma {:induction false} AbovePrefix(st: Lex, d: int, a: string, b: string)
    requires Above(st, d, a + b)
    ensures Above(st, d, a) && !Scan(st, a).Dead? && Scan(st, a).depth >= d
    decreases a
  {
    if a == "" {
    } else {
      assert (a + b)[1..] == a[1..] + b;
      AbovePrefix(Step(st, a[0]), d, a[1..], b);
    }
  }

  lemma BalancedAppend(a: string, b: string, d: int)
    requires Balanced(a, d) && Balanced(b, d)
    ensures Balanced(a + b, d)
  {
    ScanAppend(Out(d), a, b);
    AboveAppend(Out(d), d, a, b);
  }

  lemma {:induction false} PlainIsBalanced(s: string, d: int)
    requires forall i :: 0 <= i < |s| ==> PlainOutside(s[i])
    ensures Balanced(s, d)
  {
    if s == "" {
    } else {
      PlainIsBalanced(s[1..], d);
    }
  }

  lemma {:induction false} AboveWeaken(st: Lex, d: int, e: int, s: string)
    requires Above(st, e, s) && d <= e
    ensures Above(st, d, s)
    decreases s
  {
    if s == "" {
    } else {
      AboveWeaken(Step(st, s[0]), d, e, s[1..]);
    }
  }

  /** Brackets around balanced text are balanced one level up. */
  lemma BracketsBalance(open: char, s: string, close: char, d: int)
    requires Balanced(s, d + 1)
    requires (open == '[' && close == ']') || (open == '{' && close == '}')
    ensures Balanced([open] + s + [close], d)
  {
    AboveWeaken(Out(d + 1), d, d + 1, s);
    assert Scan(Out(d + 1), [close]) == Out(d);
    ScanAppend(Out(d + 1), s, [close]);
    assert Above(Out(d + 1), d, [close]);
    AboveAppend(Out(d + 1), d, s, [close]);
    var t := [open] + s + [close];
    assert t[0] == open && t[1..] == s + [close];
  }

  // ---- What the parser consumes ---------------------------------------------

  lemma {:induction false} SpaceConsumed(s: string) returns (w: string)
    ensures s == w + SkipSpace(s) && AllSpace(w)
  {
    if s != "" && IsSpace(s[0]) {
      w := SpaceConsumed(s[1..]);
      w := [s[0]] + w;
    } else {
      w := "";
    }
  }

  lemma SpaceIsBalanced(w: string, d: int)
    requires AllSpace(w)
    ensures Balanced(w, d)
  {
    PlainIsBalanced(w, d);
  }

  lemma HexInside(s: string, d: int)
    requires Hex4(s).Some?
    ensures Scan(In(d), s[..4]) == In(d) && Above(In(d), d, s[..4])
  {
    var x := s[..4];
    assert x == [x[0], x[1], x[2], x[3]];
    forall i | 0 <= i < 4 ensures x[i] != '"' && x[i] != '\\' {}
    InsideStays(x, d);
  }

  lemma {:induction false} InsideStays(s: string, d: int)
    requires forall i :: 0 <= i < |s| ==> s[i] != '"' && s[i] != '\\'
    ensures Scan(In(d), s) == In(d) && Above(In(d), d, s)
  {
    if s == "" {
    } else {
      InsideStays(s[1..], d);
    }
  }

  /** Four hex digits after a `u`, read after a backslash. */
  lemma UnicodeEscape(s: string, d: int)
    requires s != "" && s[0] == 'u' && Hex4(s[1..]).Some?
    ensures var x := "u" + s[1..][..4]; Scan(Esc(d), x) == In(d) && Above(Esc(d), d, x)
  {
    HexInside(s[1..], d);
    var x := "u" + s[1..][..4];
    assert x[1..] == s[1..][..4];
  }

  /** A second escape, the low half of a surrogate pair. */
  lemma SecondEscape(s: string, d: int)
    requires |s| >= 7 && Hex4(s[7..]).Some?
    ensures var x := "\\" + ("u" + s[7..][..4]); Scan(In(d), x) == In(d) && Above(In(d), d, x)
  {
    var t := "u" + s[7..];
    assert t[1..] == s[7..];
    UnicodeEscape(t, d);
    var x := "\\" + ("u" + s[7..][..4]);
    assert x[1..] == "u" + s[7..][..4];
  }

  lemma EscapeConsumes(s: string, d: int) returns (x: string)
    requires ParseEscape(s).Parsed?
    ensures s == x + ParseEscape(s).rest
    ensures Scan(Esc(d), x) == In(d) && Above(Esc(d), d, x)
  {
    var rest := ParseEscape(s).rest;
    if s[0] == 'u' {
      var head := "u" + s[1..][..4];
      UnicodeEscape(s, d);
      if rest == s[5..] {
        x := head;
        assert s == head + s[5..];
      } else {
        var mid := "\\" + ("u" + s[7..][..4]);
        SecondEscape(s, d);
        assert rest == s[11..] && s[5] == '\\' && s[6] == 'u';
        hide Scan, Above, Hex4, ParseEscape;
        ScanAppend(Esc(d), head, mid);
        AboveAppend(Esc(d), d, head, mid);
        x := head + mid;
        assert s == head + mid + s[11..];
      }
    } else {
      x := [s[0]];
      assert rest == s[1..] && s == x + rest;
      assert Scan(Esc(d), x) == In(d) && Above(Esc(d), d, x) by { OneEscaped(s[0], d); }
    }
  }

  lemma OneEscaped(c: char, d: int)
    ensures Scan(Esc(d), [c]) == In(d) && Above(Esc(d), d, [c])
  {
    assert [c][1..] == "";
  }

  lemma {:induction false} StringConsumes(s: string, d: int) returns (x: string)
    requires ParseString(s).Parsed?
    ensures s == x + ParseString(s).rest
    ensures Scan(In(d), x) == Out(d) && Above(In(d), d, x)
    decreases |s|
  {
    if s[0] == '"' {
      x := "\"";
    } else if s[0] == '\\' {
      var e := EscapeConsumes(s[1..], d);
      var y := StringConsumes(ParseEscape(s[1..]).rest, d);
      ScanAppend(Esc(d), e, y);
      AboveAppend(Esc(d), d, e, y);
      x := "\\" + (e + y);
      assert x[1..] == e + y;
      Assoc(e, y, ParseString(s).rest);
      assert s == "\\" + s[1..];
    } else {
      var y := StringConsumes(s[1..], d);
      x := [s[0]] + y;
      assert x[1..] == y;
    }
  }

  /** A whole quoted string. */
  lemma QuotedConsumes(t: string, d: int) returns (x: string)
    requires t != "" && t[0] == '"' && ParseString(t[1..]).Parsed?
    ensures t == x + ParseString(t[1..]).rest && Balanced(x, d)
  {
    var y := StringConsumes(t[1..], d);
    x := "\"" + y;
    assert x[1..] == y;
  }

  lemma WordConsumes(t: string, word: string, v: Json, d: int)
    requires ParseLiteral(t, word, v).Parsed? && word in {"null", "true", "false"}
    ensures t == word + ParseLiteral(t, word, v).rest && Balanced(word, d)
  {
    PlainIsBalanced(word, d);
  }

  lemma NumberConsumes(t: string, d: int) returns (x: string)
    requires ParseNumber(t).Parsed?
    ensures t == x + ParseNumber(t).rest && Balanced(x, d)
  {
    x := t[..DigitRun(t)];
    PlainIsBalanced(x, d);
  }

  lemma NegativeConsumes(t: string, d: int) returns (x: string)
    requires t != "" && t[0] == '-' && ParseNegative(t[1..]).Parsed?
    ensures t == x + ParseNegative(t[1..]).rest && Balanced(x, d)
  {
    x := t[..1 + DigitRun(t[1..])];
    assert x == "-" + t[1..][..DigitRun(t[1..])];
    PlainIsBalanced(x, d);
  }

  lemma {:induction false} ValueConsumes(s: string, room: nat, d: int) returns (x: string)
    requires ParseValue(s, room).Parsed?
    ensures s == x + ParseValue(s, room).rest && Balanced(x, d)
    decreases |s|, 4
  {
    hide ParseToken, Balanced;
    var t := SkipSpace(s);
    var w := SpaceConsumed(s);
    SpaceIsBalanced(w, d);
    var y := TokenConsumes(t, room, d);
    BalancedAppend(w, y, d);
    x := w + y;
  }

  lemma {:induction false} TokenConsumes(t: string, room: nat, d: int) returns (x: string)
    requires ParseToken(t, room).Parsed?
    ensures t == x + ParseToken(t, room).rest && Balanced(x, d)
    decreases |t|, 3
  {
    hide Balanced, ParseString, ParseNumber, ParseNegative, ParseLiteral, ParseArray, ParseObject;
    if t[0] == 'n' { WordConsumes(t, "null", Null, d); x := "null"; }
    else if t[0] == 't' { WordConsumes(t, "true", Bool(true), d); x := "true"; }
    else if t[0] == 'f' { WordConsumes(t, "false", Bool(false), d); x := "false"; }
    else if IsDigit(t[0]) { x := NumberConsumes(t, d); }
    else if t[0] == '-' { x := NegativeConsumes(t, d); }
    else if t[0] == '"' { x := QuotedConsumes(t, d); }
    else if t[0] == '[' {
      var y := ArrayConsumes(t[1..], room, d + 1);
      BracketsBalance('[', y, ']', d);
      x := "[" + y + "]";
      Rejoin(t, '[', y, ']', ParseArray(t[1..], room).rest);
    } else {
      var y := ObjectConsumes(t[1..], room, d + 1);
      BracketsBalance('{', y, '}', d);
      x := "{" + y + "}";
      Rejoin(t, '{', y, '}', ParseObject(t[1..], room).rest);
    }
  }

  lemma Rejoin(t: string, open: char, y: string, close: char, rest: string)
    requires t != "" && t[0] == open && t[1..] == y + ([close] + rest)
    ensures t == [open] + y + [close] + rest
  {
    Assoc([open] + y, [close], rest);
    Assoc([open], y, [close] + rest);
    assert t == [open] + t[1..];
  }

  /** After the opening bracket: balanced text, then the closing one. */
  lemma {:induction false} ArrayConsumes(s: string, room: nat, d: int) returns (y: string)
    requires ParseArray(s, room).Parsed?
    ensures s == y + ("]" + ParseArray(s, room).rest) && Balanced(y, d)
    decreases |s|, 6
  {
    hide Balanced, ParseItems;
    var u := SkipSpace(s);
    if u != "" && u[0] == ']' {
      y := SpaceConsumed(s);
      SpaceIsBalanced(y, d);
      assert u == "]" + u[1..];
    } else {
      y := ItemsConsume(s, room - 1, [], d);
    }
  }

  lemma {:induction false} ObjectConsumes(s: string, room: nat, d: int) returns (y: string)
    requires ParseObject(s, room).Parsed?
    ensures s == y + ("}" + ParseObject(s, room).rest) && Balanced(y, d)
    decreases |s|, 6
  {
    hide Balanced, ParseFields;
    var u := SkipSpace(s);
    if u != "" && u[0] == '}' {
      y := SpaceConsumed(s);
      SpaceIsBalanced(y, d);
      assert u == "}" + u[1..];
    } else {
      y := FieldsConsume(s, room - 1, [], d);
    }
  }

  /** Balanced text, then space, then one more character. */
  lemma ThenCharacter(s: string, x: string, after: string, d: int) returns (y: string)
    requires s == x + after && Balanced(x, d) && SkipSpace(after) != ""
    ensures var t := SkipSpace(after);
            s == y + ([t[0]] + t[1..]) && Balanced(y, d)
    ensures PlainOutside(SkipSpace(after)[0]) ==> Balanced(y + [SkipSpace(after)[0]], d)
  {
    hide Balanced;
    var t := SkipSpace(after);
    var w := SpaceConsumed(after);
    SpaceIsBalanced(w, d);
    BalancedAppend(x, w, d);
    y := x + w;
    Assoc(x, w, t);
    assert t == [t[0]] + t[1..];
    if PlainOutside(t[0]) {
      PlainIsBalanced([t[0]], d);
      BalancedAppend(y, [t[0]], d);
    }
  }

  lemma {:induction false} ItemsConsume(s: string, room: nat, acc: seq<Json>, d: int) returns (y: string)
    requires ParseItems(s, room, acc).Parsed?
    ensures s == y + ("]" + ParseItems(s, room, acc).rest) && Balanced(y, d)
    decreases |s|, 5
  {
    hide Balanced, ParseValue, SkipSpace;
    var x := ValueConsumes(s, room, d);
    var Parsed(v, after) := ParseValue(s, room);
    y := ThenCharacter(s, x, after, d);
    var t := SkipSpace(after);
    if t[0] != ',' {
    } else {
      var z := ItemsConsume(t[1..], room, acc + [v], d);
      BalancedAppend(y + [t[0]], z, d);
      Assoc(y, [t[0]], t[1..]);
      Assoc(y + [t[0]], z, "]" + ParseItems(s, room, acc).rest);
      y := y + [t[0]] + z;
    }
  }

  lemma {:induction false} MemberConsumes(s: string, room: nat, d: int) returns (x: string)
    requires ParseMember(s, room).Parsed?
    ensures s == x + ParseMember(s, room).rest && Balanced(x, d)
    decreases |s|, 4
  {
    hide Balanced, ParseValue, ParseKey;
    var k := KeyConsumes(s, d);
    var after := ParseKey(s).rest;
    var v := ValueConsumes(after, room, d);
    BalancedAppend(k, v, d);
    x := k + v;
    Assoc(k, v, ParseMember(s, room).rest);
  }

  lemma KeyConsumes(s: string, d: int) returns (x: string)
    requires ParseKey(s).Parsed?
    ensures s == x + ParseKey(s).rest && Balanced(x, d)
  {
    hide Balanced, ParseString;
    var t := SkipSpace(s);
    var w := SpaceConsumed(s);
    SpaceIsBalanced(w, d);
    var q := QuotedConsumes(t, d);
    var after := ParseString(t[1..]).rest;
    BalancedAppend(w, q, d);
    Assoc(w, q, after);
    var y := ThenCharacter(s, w + q, after, d);
    var u := SkipSpace(after);
    x := y + [u[0]];
    Assoc(y, [u[0]], u[1..]);
  }

  lemma {:induction false} FieldsConsume(s: string, room: nat, acc: seq<Field>, d: int) returns (y: string)
    requires ParseFields(s, room, acc).Parsed?
    ensures s == y + ("}" + ParseFields(s, room, acc).rest) && Balanced(y, d)
    decreases |s|, 5
  {
    hide Balanced, ParseMember, SkipSpace;
    var x := MemberConsumes(s, room, d);
    var Parsed(f, after) := ParseMember(s, room);
    y := ThenCharacter(s, x, after, d);
    var t := SkipSpace(after);
    if t[0] != ',' {
    } else {
      var z := FieldsConsume(t[1..], room, Insert(acc, f.key, f.value), d);
      BalancedAppend(y + [t[0]], z, d);
      Assoc(y, [t[0]], t[1..]);
      Assoc(y + [t[0]], z, "}" + ParseFields(s, room, acc).rest);
      y := y + [t[0]] + z;
    }
  }

  // ---- Documents ------------------------------------------------------------

  lemma DocumentBalanced(s: string)
    requires ParseDocument(s).Some?
    ensures Scan(Out(0), s) == Out(0)
  {
    hide ParseValue;
    var x := ValueConsumes(s, NESTING_LIMIT, 0);
    var z := ParseValue(s, NESTING_LIMIT).rest;
    var w := SpaceConsumed(z);
    assert z == w;
    SpaceIsBalanced(z, 0);
    BalancedAppend(x, z, 0);
  }

  /** Text the parser reads as an object: space, braces around balanced text, space. */
  ghost predicate ObjectText(s: string, w: string, y: string, z: string) {
    s == w + ("{" + y + "}") + z && AllSpace(w) && AllSpace(z) && Balanced(y, 1)
  }

  lemma ObjectShape(s: string, room: nat) returns (w: string, y: string, z: string)
    requires ParseValue(s, room).Parsed? && ParseValue(s, room).value.Obj?
    requires SkipSpace(ParseValue(s, room).rest) == ""
    ensures ObjectText(s, w, y, z)
    ensures z == ParseValue(s, room).rest
    ensures s != "" && !IsSpace(s[0]) ==> w == "" && s[0] == '{'
  {
    hide Balanced, ParseObject, ParseArray, ParseString;
    var t := SkipSpace(s);
    w := SpaceConsumed(s);
    assert t[0] == '{';
    y := ObjectConsumes(t[1..], room, 1);
    z := ParseObject(t[1..], room).rest;
    Rejoin(t, '{', y, '}', z);
    var v := SpaceConsumed(z);
    assert v == z;
    Assoc(w, "{" + y + "}", z);
    if w == "" { assert s == t; }
  }

  /** Reading an object up to anywhere strictly inside its braces leaves the
      lexer nested. */
  lemma InsideIsNested(s: string, w: string, y: string, z: string, k: nat)
    requires ObjectText(s, w, y, z) && |w| < k < |w| + 2 + |y|
    ensures var st := Scan(Out(0), s[..k]); !st.Dead? && st.depth >= 1
  {
    var inner := y[..k - |w| - 1];
    assert s[..k] == w + ("{" + inner);
    SpaceIsBalanced(w, 0);
    ScanAppend(Out(0), w, "{" + inner);
    assert ("{" + inner)[1..] == inner;
    assert y == inner + y[k - |w| - 1..];
    AbovePrefix(Out(1), 1, inner, y[k - |w| - 1..]);
  }

  /** An object printed on its own: no space around it. */
  ghost predicate BareObject(s: string, room: nat) {
    && s != "" && s[0] == '{'
    && ParseValue(s, room).Parsed? && ParseValue(s, room).value.Obj? && ParseValue(s, room).rest == ""
  }

  /** No proper prefix of a printed object is a document. */
  lemma PrefixDoesNotParse(s: string, room: nat, k: nat)
    requires BareObject(s, room) && 0 < k < |s|
    ensures ParseDocument(s[..k]) == None
  {
    hide ParseValue, SkipSpace, Balanced, Scan;
    assert SkipSpace("") == "" by { SkipEmpty(); }
    var w, y, z := ObjectShape(s, room);
    assert |s| == |w| + (2 + |y|) + |z|;
    InsideIsNested(s, w, y, z, k);
    if ParseDocument(s[..k]).Some? { DocumentBalanced(s[..k]); }
  }

  lemma SkipEmpty()
    ensures SkipSpace("") == ""
  {}

  /** Read inside a string, text starting like a journal line dies at the `c`
      of its first key. */
  lemma DiesInside(s: string, st: Lex)
    requires "{\"anc" <= s && (st.In? || st.Esc? || st.Dead?)
    ensures Scan(st, s) == Dead
  {
    var s1 := s[1..];
    var s2 := s1[1..];
    var s3 := s2[1..];
    var s4 := s3[1..];
    assert s[0] == '{' && s1[0] == '"' && s2[0] == 'a' && s3[0] == 'n' && s4[0] == 'c';
    var st1 := Step(st, '{');
    var st2 := Step(st1, '"');
    var st3 := Step(st2, 'a');
    var st4 := Step(st3, 'n');
    assert Step(st4, 'c') == Dead;
    DeadStays(s4[1..]);
    assert Scan(st4, s4) == Dead;
    assert Scan(st3, s3) == Dead;
    assert Scan(st2, s2) == Dead;
    assert Scan(st1, s1) == Dead;
  }

  lemma {:induction false} DeadStays(s: string)
    ensures Scan(Dead, s) == Dead
  {
    if s == "" {
    } else {
      DeadStays(s[1..]);
    }
  }

  /** Read inside a string at some depth, no beginning of such text gets back out
      to depth 0. */
  lemma NeverClosesInside(s: string, st: Lex, j: nat)
    requires "{\"anc" <= s && (st.In? || st.Esc?) && st.depth >= 1 && 0 < j <= |s|
    ensures var q := Scan(st, s[..j]); q.Dead? || q.depth >= 1
  {
    var x := s[..j];
    if j >= 5 {
      assert "{\"anc" <= x;
      DiesInside(x, st);
    } else {
      assert x == "{\"anc"[..j] <= "{\"an";
      ScanFewCharacters(st, x);
    }
  }

  lemma ScanFewCharacters(st: Lex, x: string)
    requires (st.In? || st.Esc?) && st.depth >= 1 && x != "" && x <= "{\"an"
    ensures !Scan(st, x).Dead? && Scan(st, x).depth >= 1
  {
    var x1 := x[1..];
    var st1 := Step(st, '{');
    assert Scan(st, x) == Scan(st1, x1);
    if |x| >= 2 {
      var st2, x2 := Step(st1, '"'), x1[1..];
      assert Scan(st1, x1) == Scan(st2, x2);
      if |x| >= 3 {
        var st3, x3 := Step(st2, 'a'), x2[1..];
        assert Scan(st2, x2) == Scan(st3, x3);
        if |x| >= 4 { assert Scan(st3, x3) == Scan(Step(st3, 'n'), x3[1..]); }
      }
    }
  }

  /** Whatever non-blank text precedes it, a journal line glued to its end, whole
      or cut short, does not read as an object. */
  lemma GluedDoesNotParse(t: string, s: string, room: nat, j: nat)
    requires BareObject(s, room) && "{\"anc" <= s && 0 < j <= |s|
    requires !AllSpace(t)
    ensures ParseDocument(t + s[..j]).None? || !ParseDocument(t + s[..j]).value.Obj?
  {
    hide ParseValue, SkipSpace, Balanced, Scan, AllSpace;
    var x := s[..j];
    assert (t + x)[..|t|] == t;
    if ParseDocument(t + x).Some? && ParseDocument(t + x).value.Obj? {
      DocumentBalanced(t + x);
      ScanAppend(Out(0), t, x);
      var st := Scan(Out(0), t);
      var w, y, z := ObjectShape(t + x, NESTING_LIMIT);
      WhereTheJoinFalls(t, x, w, y, z);
      InsideIsNested(t + x, w, y, z, |t|);
      if st.Out? {
        BareStaysAbove(s, room, st.depth);
        assert s == x + s[j..];
        AbovePrefix(st, st.depth, x, s[j..]);
      } else {
        NeverClosesInside(s, st, j);
      }
    }
  }

  lemma BareStaysAbove(s: string, room: nat, d: int)
    requires BareObject(s, room)
    ensures Above(Out(d), d, s)
  {
    hide ParseValue;
    var x := ValueConsumes(s, room, d);
    assert x + "" == x;
  }

  /** The join lies in the leading space, strictly inside, or before trailing space. */
  lemma WhereTheJoinFalls(t: string, s: string, w: string, y: string, z: string)
    requires ObjectText(t + s, w, y, z) && s != ""
    ensures |t| <= |w| ==> AllSpace(t)
    ensures |t| >= |w| + 2 + |y| ==> IsSpace(s[0])
  {
    var all := w + ("{" + y + "}") + z;
    if |t| <= |w| {
      assert t == all[..|t|] == w[..|t|];
    } else if |t| >= |w| + 2 + |y| {
      assert s[0] == all[|t|] == z[|t| - |w| - 2 - |y|];
    }
  }
}
