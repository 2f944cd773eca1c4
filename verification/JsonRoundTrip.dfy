/** Printing then parsing gives a JSON value back, in either style, exactly
    when its nesting fits the parser's limit. */
module JsonRoundTrip {
  import opened Basics
  import opened Text
  import Hex
  import opened Json

  // ---- Space ----------------------------------------------------------------

  predicate AllSpace(s: string) {
    forall i :: 0 <= i < |s| ==> IsSpace(s[i])
  }

  lemma {:induction false} SkipAllSpace(w: string, s: string)
    requires AllSpace(w)
    ensures SkipSpace(w + s) == SkipSpace(s)
  {
    if w == "" {
      assert w + s == s;
    } else {
      assert (w + s)[1..] == w[1..] + s;
      SkipAllSpace(w[1..], s);
    }
  }

  lemma BreakIsSpace(style: Style, level: nat)
    ensures AllSpace(Break(style, level))
  {}

  lemma BreakStart(style: Style, level: nat)
    ensures Break(style, level) == "" || Break(style, level)[0] == '\n'
  {}

  lemma SkipNothing(s: string)
    requires s != "" && !IsSpace(s[0])
    ensures SkipSpace(s) == s
  {}

  lemma ValueAfterSpace(w: string, s: string, room: nat)
    requires AllSpace(w)
    ensures ParseValue(w + s, room) == ParseValue(s, room)
  {
    hide ParseToken, SkipSpace;
    SkipAllSpace(w, s);
  }

  // ---- Strings --------------------------------------------------------------

  lemma EscapedControl(c: char, rest: string)
    requires c as int < 0x20
    ensures Hex4("00" + [Hex.HexDigit(c as int / 16), Hex.HexDigit(c as int % 16)] + rest) == Some(c as int)
  {
    assert Hex.HexNibble('0') == Some(0);
  }

  lemma EscapedCharParses(c: char, rest: string)
    requires EscapeChar(c)[0] == '\\'
    ensures ParseEscape(EscapeChar(c)[1..] + rest) == Parsed(c, rest)
  {
    var e := EscapeChar(c)[1..] + rest;
    assert |EscapeChar(c)| == 2 ==> e[1..] == rest;
    if |EscapeChar(c)| == 6 {
      var tail := "00" + [Hex.HexDigit(c as int / 16), Hex.HexDigit(c as int % 16)] + rest;
      assert e[0] == 'u' && e[1..] == tail && e[5..] == rest;
      EscapedControl(c, rest);
    }
  }

  lemma EscapeIsNotEmpty(c: char)
    ensures EscapeChar(c) != "" && EscapeChar(c)[0] != '"'
    ensures EscapeChar(c)[0] != '\\' ==> EscapeChar(c) == [c] && c as int >= 0x20
  {}

  lemma {:induction false} StringParses(s: string, rest: string)
    ensures ParseString(Escape(s) + "\"" + rest) == Parsed(s, rest)
  {
    hide EscapeChar, ParseEscape;
    if s == "" {
      assert Escape(s) + "\"" + rest == "\"" + rest;
    } else {
      var e, tail := EscapeChar(s[0]), Escape(s[1..]) + "\"" + rest;
      var all := Escape(s) + "\"" + rest;
      assert all == e + tail;
      EscapeIsNotEmpty(s[0]);
      StringParses(s[1..], rest);
      assert s == [s[0]] + s[1..];
      if e[0] == '\\' {
        EscapedCharParses(s[0], tail);
        assert all[1..] == e[1..] + tail;
      } else {
        assert all[1..] == tail;
      }
    }
  }

  lemma QuotedParses(s: string, rest: string)
    ensures var q := Quote(s) + rest;
            q != "" && q[0] == '"' && ParseString(q[1..]) == Parsed(s, rest)
  {
    hide Escape, ParseString;
    StringParses(s, rest);
    Assoc("\"" + Escape(s), "\"", rest);
    Assoc("\"", Escape(s), "\"" + rest);
    Assoc(Escape(s), "\"", rest);
    assert ("\"" + (Escape(s) + ("\"" + rest)))[1..] == Escape(s) + ("\"" + rest);
  }

  // ---- Numbers --------------------------------------------------------------

  lemma {:induction false} RunOfDigits(d: string, rest: string)
    requires AllDigits(d) && (rest != "" ==> !IsDigit(rest[0]))
    ensures DigitRun(d + rest) == |d|
  {
    if d == "" {
      assert d + rest == rest;
    } else {
      assert (d + rest)[1..] == d[1..] + rest;
      RunOfDigits(d[1..], rest);
    }
  }

  /** Text that can follow a printed value without being read as part of it. */
  predicate EndsValue(rest: string) {
    rest != "" ==> !IsDigit(rest[0]) && rest[0] !in ".eE"
  }

  lemma NumberParses(n: u64, rest: string)
    requires EndsValue(rest)
    ensures ParseNumber(Decimal(n) + rest) == Parsed(Num(n), rest)
  {
    var d := Decimal(n);
    RunOfDigits(d, rest);
    DecimalValue(n);
    DecimalHasNoLeadingZero(n);
    assert (d + rest)[..|d|] == d && (d + rest)[|d|..] == rest;
  }

  lemma NegativeParses(m: magnitude, rest: string)
    requires EndsValue(rest)
    ensures ParseNegative(Decimal(m) + rest) == Parsed(Neg(m), rest)
  {
    var d := Decimal(m);
    RunOfDigits(d, rest);
    DecimalValue(m);
    DecimalHasNoLeadingZero(m);
    assert (d + rest)[..|d|] == d && (d + rest)[|d|..] == rest;
  }

  // ---- Values ---------------------------------------------------------------

  lemma PrintedStart(v: Json, style: Style, level: nat)
    ensures var p := Print(v, style, level);
            p != "" && !IsSpace(p[0]) && p[0] != ']' && p[0] != '}'
  {}

  ghost function Fitting(v: Json, fits: bool, rest: string): Parsed<Json> {
    if fits then Parsed(v, rest) else Bad
  }

  lemma TokenParses(p: string, rest: string, room: nat)
    requires p != "" && !IsSpace(p[0])
    ensures ParseValue(p + rest, room) == ParseToken(p + rest, room) && (p + rest)[0] == p[0]
    ensures (p + rest)[1..] == p[1..] + rest
  {
    hide ParseToken;
    SkipNothing(p + rest);
  }

  lemma WordParses(word: string, v: Json, rest: string)
    ensures ParseLiteral(word + rest, word, v) == Parsed(v, rest)
  {}

  lemma ScalarParses(v: Json, style: Style, level: nat, rest: string, room: nat)
    requires !v.Arr? && !v.Obj? && EndsValue(rest)
    ensures ParseValue(Print(v, style, level) + rest, room) == Parsed(v, rest)
  {
    hide ParseLiteral, ParseNumber, ParseNegative, ParseString, ParseArray, ParseObject, Quote, Decimal;
    var p := Print(v, style, level);
    PrintedStart(v, style, level);
    TokenParses(p, rest, room);
    match v {
      case Num(n) => NumberParses(n, rest);
      case Neg(m) =>
        NegativeParses(m, rest);
        assert p[1..] == Decimal(m);
      case Str(s) => QuotedParses(s, rest);
      case Bool(b) => WordParses(if b then "true" else "false", v, rest);
      case Null => WordParses("null", v, rest);
    }
  }

  /** What the parser makes of printed text: the value and the text after it if
      the nesting fits in `room`, and an error if it does not. */
  lemma {:induction false} ValueParses(v: Json, style: Style, level: nat, rest: string, room: nat)
    requires WellFormed(v) && EndsValue(rest) && room >= 1
    ensures ParseValue(Print(v, style, level) + rest, room) == Fitting(v, Depth(v) < room, rest)
    decreases v, 0
  {
    match v {
      case Arr(items) => ArrayParses(items, style, level, rest, room);
      case Obj(fields) => ObjectParses(fields, style, level, rest, room);
      case _ =>
        hide Print, ParseValue;
        ScalarParses(v, style, level, rest, room);
    }
  }

  /** What follows the last member of an array or object. */
  function Closing(style: Style, level: nat, close: char, rest: string): string {
    Break(style, level) + ([close] + rest)
  }

  lemma ClosingFollows(style: Style, level: nat, close: char, rest: string)
    requires close == ']' || close == '}'
    ensures var tail := Closing(style, level, close, rest);
            EndsValue(tail) && SkipSpace(tail) == [close] + rest && ([close] + rest)[1..] == rest
  {
    hide Break, SkipSpace;
    var b := Break(style, level);
    BreakIsSpace(style, level);
    SkipAllSpace(b, [close] + rest);
    SkipNothing([close] + rest);
    BreakStart(style, level);
    assert (b + ([close] + rest))[0] == if b == "" then close else b[0];
  }

  /** The text after a printed member: the comma and the remaining members, or
      what closes the list. */
  function ItemsTail(items: seq<Json>, style: Style, level: nat, rest: string): string
    requires items != []
  {
    if |items| == 1 then Closing(style, level, ']', rest)
    else "," + (PrintItems(items[1..], style, level + 1) + Closing(style, level, ']', rest))
  }

  function FieldsTail(fields: seq<Field>, style: Style, level: nat, rest: string): string
    requires fields != []
  {
    if |fields| == 1 then Closing(style, level, '}', rest)
    else "," + (PrintFields(fields[1..], style, level + 1) + Closing(style, level, '}', rest))
  }

  lemma ItemsText(items: seq<Json>, style: Style, level: nat, rest: string)
    requires items != []
    ensures PrintItems(items, style, level + 1) + Closing(style, level, ']', rest)
         == Break(style, level + 1) + (Print(items[0], style, level + 1) + ItemsTail(items, style, level, rest))
  {
    hide Print, Closing, Break;
    var close := Closing(style, level, ']', rest);
    var lead, p := Break(style, level + 1), Print(items[0], style, level + 1);
    var more := if |items| == 1 then "" else "," + PrintItems(items[1..], style, level + 1);
    assert PrintItems(items, style, level + 1) == lead + p + more;
    Assoc(lead + p, more, close);
    Assoc(lead, p, more + close);
    if |items| == 1 {
      assert more + close == close;
    } else {
      Assoc(",", PrintItems(items[1..], style, level + 1), close);
    }
  }

  lemma FieldsText(fields: seq<Field>, style: Style, level: nat, rest: string)
    requires fields != []
    ensures PrintFields(fields, style, level + 1) + Closing(style, level, '}', rest)
         == Break(style, level + 1) + (Quote(fields[0].key)
            + (Colon(style) + (Print(fields[0].value, style, level + 1) + FieldsTail(fields, style, level, rest))))
  {
    hide Print, Closing, Break, Quote, Colon;
    var close := Closing(style, level, '}', rest);
    var lead, q, c, p := Break(style, level + 1), Quote(fields[0].key), Colon(style),
      Print(fields[0].value, style, level + 1);
    var more := if |fields| == 1 then "" else "," + PrintFields(fields[1..], style, level + 1);
    assert PrintFields(fields, style, level + 1) == lead + q + c + p + more;
    Assoc(lead + q + c + p, more, close);
    Assoc(lead + q + c, p, more + close);
    Assoc(lead + q, c, p + (more + close));
    Assoc(lead, q, c + (p + (more + close)));
    if |fields| == 1 {
      assert more + close == close;
    } else {
      Assoc(",", PrintFields(fields[1..], style, level + 1), close);
    }
  }

  lemma TailEndsItem(items: seq<Json>, style: Style, level: nat, rest: string)
    requires items != []
    ensures EndsValue(ItemsTail(items, style, level, rest))
  {
    hide PrintItems, Closing;
    ClosingFollows(style, level, ']', rest);
  }

  lemma TailEndsField(fields: seq<Field>, style: Style, level: nat, rest: string)
    requires fields != []
    ensures EndsValue(FieldsTail(fields, style, level, rest))
  {
    hide PrintFields, Closing;
    ClosingFollows(style, level, '}', rest);
  }

  lemma {:induction false} ItemsParse(items: seq<Json>, style: Style, level: nat, rest: string, room: nat,
      acc: seq<Json>)
    requires items != [] && WellFormed(Arr(items)) && room >= 1
    ensures ParseItems(PrintItems(items, style, level + 1) + Closing(style, level, ']', rest), room, acc)
         == Fitting(Arr(acc + items), ItemsDepth(items) < room, rest)
    decreases items, 1
  {
    hide Print, PrintItems, Closing, Break, ParseValue, SkipSpace, EndsValue, ItemsTail;
    var v, tail := items[0], ItemsTail(items, style, level, rest);
    ItemsText(items, style, level, rest);
    BreakIsSpace(style, level + 1);
    ValueAfterSpace(Break(style, level + 1), Print(v, style, level + 1) + tail, room);
    TailEndsItem(items, style, level, rest);
    ValueParses(v, style, level + 1, tail, room);
    if Depth(v) >= room {
    } else {
      ItemsParseTail(items, style, level, rest, room, acc);
    }
  }

  lemma {:induction false} ItemsParseTail(items: seq<Json>, style: Style, level: nat, rest: string, room: nat,
      acc: seq<Json>)
    requires items != [] && WellFormed(Arr(items)) && room >= 1
    ensures var t := SkipSpace(ItemsTail(items, style, level, rest));
            && (|items| == 1 ==> t == "]" + rest && t[1..] == rest && acc + items == acc + [items[0]])
            && (|items| > 1 ==> t != "" && t[0] == ',')
            && (|items| > 1 ==>
                  ParseItems(t[1..], room, acc + [items[0]])
                  == Fitting(Arr(acc + items), ItemsDepth(items[1..]) < room, rest))
    decreases items, 0
  {
    hide Print, PrintItems, Closing, Break, ParseItems;
    if |items| == 1 {
      ClosingFollows(style, level, ']', rest);
    } else {
      var more := PrintItems(items[1..], style, level + 1) + Closing(style, level, ']', rest);
      SkipNothing("," + more);
      assert ("," + more)[1..] == more;
      ItemsParse(items[1..], style, level, rest, room, acc + [items[0]]);
      assert acc + [items[0]] + items[1..] == acc + items;
    }
  }

  lemma {:induction false} ArrayParses(items: seq<Json>, style: Style, level: nat, rest: string, room: nat)
    requires WellFormed(Arr(items)) && EndsValue(rest) && room >= 1
    ensures ParseValue(Print(Arr(items), style, level) + rest, room)
        == Fitting(Arr(items), Depth(Arr(items)) < room, rest)
    decreases items, 2
  {
    hide ParseValue, ParseItems, PrintItems, Closing, Break, SkipSpace;
    var p := Print(Arr(items), style, level);
    TokenParses(p, rest, room);
    assert ParseValue(p + rest, room) == ParseArray(p[1..] + rest, room);
    if items == [] {
      assert p[1..] == "]";
      SkipNothing("]" + rest);
      assert ("]" + rest)[1..] == rest;
    } else {
      hide ParseToken;
      ClosedText("[", PrintItems(items, style, level + 1), style, level, ']', rest);
      FirstItemStart(items, style, level, rest);
      if room > 1 {
        ItemsParse(items, style, level, rest, room - 1, []);
        assert [] + items == items;
      }
    }
  }

  lemma ClosedText(open: string, inner: string, style: Style, level: nat, close: char, rest: string)
    requires |open| == 1
    ensures (open + inner + Break(style, level) + [close])[1..] + rest == inner + Closing(style, level, close, rest)
  {
    hide Break;
    var b := Break(style, level);
    Assoc(open + inner, b, [close]);
    Assoc(open, inner, b + [close]);
    assert (open + (inner + (b + [close])))[1..] == inner + (b + [close]);
    Assoc(inner, b + [close], rest);
    Assoc(b, [close], rest);
  }

  lemma FirstItemStart(items: seq<Json>, style: Style, level: nat, rest: string)
    requires items != []
    ensures var u := SkipSpace(PrintItems(items, style, level + 1) + Closing(style, level, ']', rest));
            u != "" && u[0] != ']'
  {
    hide Print, PrintItems, Closing, Break, ItemsTail;
    var p, tail := Print(items[0], style, level + 1), ItemsTail(items, style, level, rest);
    ItemsText(items, style, level, rest);
    BreakIsSpace(style, level + 1);
    SkipAllSpace(Break(style, level + 1), p + tail);
    PrintedStart(items[0], style, level + 1);
    SkipNothing(p + tail);
  }

  lemma ColonFollows(style: Style, next: string)
    ensures var after := Colon(style) + next;
            after != "" && SkipSpace(after) == after && after[0] == ':' && after[1..] == Colon(style)[1..] + next
  {
    SkipNothing(Colon(style) + next);
  }

  lemma KeyParses(w: string, key: string, style: Style, next: string)
    requires AllSpace(w)
    ensures ParseKey(w + (Quote(key) + (Colon(style) + next))) == Parsed(key, Colon(style)[1..] + next)
  {
    hide Quote, SkipSpace, ParseString, Colon;
    var after := Colon(style) + next;
    SkipAllSpace(w, Quote(key) + after);
    QuotedParses(key, after);
    SkipNothing(Quote(key) + after);
    ColonFollows(style, next);
  }

  lemma {:induction false} MemberParses(f: Field, w: string, style: Style, level: nat, tail: string, room: nat)
    requires AllSpace(w) && WellFormed(f.value) && EndsValue(tail) && room >= 1
    ensures ParseMember(w + (Quote(f.key) + (Colon(style) + (Print(f.value, style, level) + tail))), room)
         == if Depth(f.value) < room then Parsed(f, tail) else Bad
    decreases f, 1
  {
    hide Print, ParseValue, ParseKey, Quote, EndsValue;
    var next := Print(f.value, style, level) + tail;
    KeyParses(w, f.key, style, next);
    ColonIsSpace(style);
    ValueAfterSpace(Colon(style)[1..], next, room);
    ValueParses(f.value, style, level, tail, room);
  }

  lemma {:induction false} FieldsParse(fields: seq<Field>, style: Style, level: nat, rest: string, room: nat,
      acc: seq<Field>)
    requires fields != [] && Sorted(acc + fields) && (forall i :: 0 <= i < |fields| ==> WellFormed(fields[i].value))
        && room >= 1
    ensures ParseFields(PrintFields(fields, style, level + 1) + Closing(style, level, '}', rest), room, acc)
         == Fitting(Obj(acc + fields), FieldsDepth(fields) < room, rest)
    decreases fields, 1
  {
    hide Print, PrintFields, Closing, Break, ParseMember, SkipSpace, EndsValue, FieldsTail, Quote, Colon, Insert;
    hide Sorted, WellFormed, LexLess;
    var tail := FieldsTail(fields, style, level, rest);
    FieldsText(fields, style, level, rest);
    BreakIsSpace(style, level + 1);
    TailEndsField(fields, style, level, rest);
    MemberParses(fields[0], Break(style, level + 1), style, level + 1, tail, room);
    if Depth(fields[0].value) >= room {
    } else {
      FieldsParseTail(fields, style, level, rest, room, acc);
    }
  }

  lemma ColonIsSpace(style: Style)
    ensures AllSpace(Colon(style)[1..])
  {}

  lemma {:induction false} FieldsParseTail(fields: seq<Field>, style: Style, level: nat, rest: string, room: nat,
      acc: seq<Field>)
    requires fields != [] && Sorted(acc + fields) && (forall i :: 0 <= i < |fields| ==> WellFormed(fields[i].value))
        && room >= 1
    ensures var t, acc' := SkipSpace(FieldsTail(fields, style, level, rest)),
        Insert(acc, fields[0].key, fields[0].value);
            && (|fields| == 1 ==> t == "}" + rest && t[1..] == rest && acc' == acc + fields)
            && (|fields| > 1 ==> t != "" && t[0] == ',')
            && (|fields| > 1 ==>
                  ParseFields(t[1..], room, acc')
                  == Fitting(Obj(acc + fields), FieldsDepth(fields[1..]) < room, rest))
    decreases fields, 0
  {
    hide Print, PrintFields, Closing, Break, ParseFields;
    var f := fields[0];
    forall g | g in acc ensures LexLess(g.key, f.key) {
      var i :| 0 <= i < |acc| && acc[i] == g;
      assert (acc + fields)[i] == g && (acc + fields)[|acc|] == f;
    }
    InsertLast(acc, f.key, f.value);
    hide Insert, LexLess;
    assert Field(f.key, f.value) == f;
    if |fields| == 1 {
      ClosingFollows(style, level, '}', rest);
      assert acc + fields == acc + [f];
    } else {
      var more := PrintFields(fields[1..], style, level + 1) + Closing(style, level, '}', rest);
      SkipNothing("," + more);
      assert ("," + more)[1..] == more;
      assert acc + [f] + fields[1..] == acc + fields;
      FieldsParse(fields[1..], style, level, rest, room, acc + [f]);
    }
  }

  lemma FirstFieldStart(fields: seq<Field>, style: Style, level: nat, rest: string)
    requires fields != []
    ensures var u := SkipSpace(PrintFields(fields, style, level + 1) + Closing(style, level, '}', rest));
            u != "" && u[0] != '}'
  {
    hide Print, PrintFields, Closing, Break, FieldsTail, Escape, Colon;
    var after := Colon(style) + (Print(fields[0].value, style, level + 1) + FieldsTail(fields, style, level, rest));
    FieldsText(fields, style, level, rest);
    BreakIsSpace(style, level + 1);
    SkipAllSpace(Break(style, level + 1), Quote(fields[0].key) + after);
    SkipNothing(Quote(fields[0].key) + after);
  }

  lemma {:induction false} ObjectParses(fields: seq<Field>, style: Style, level: nat, rest: string, room: nat)
    requires WellFormed(Obj(fields)) && EndsValue(rest) && room >= 1
    ensures ParseValue(Print(Obj(fields), style, level) + rest, room)
        == Fitting(Obj(fields), Depth(Obj(fields)) < room, rest)
    decreases fields, 2
  {
    hide ParseValue, ParseFields, PrintFields, Closing, Break, SkipSpace, Sorted, Quote;
    var p := Print(Obj(fields), style, level);
    TokenParses(p, rest, room);
    assert ParseValue(p + rest, room) == ParseObject(p[1..] + rest, room);
    if fields == [] {
      assert p[1..] == "}";
      SkipNothing("}" + rest);
      assert ("}" + rest)[1..] == rest;
    } else {
      hide ParseToken;
      ClosedText("{", PrintFields(fields, style, level + 1), style, level, '}', rest);
      FirstFieldStart(fields, style, level, rest);
      if room > 1 {
        assert [] + fields == fields;
        FieldsParse(fields, style, level, rest, room - 1, []);
      }
    }
  }

  /** The document round trip, with its exact condition. */
  lemma DocumentRoundTrip(v: Json, style: Style)
    requires WellFormed(v)
    ensures ParseDocument(Print(v, style, 0)) == if Depth(v) < NESTING_LIMIT then Some(v) else None
  {
    ValueParses(v, style, 0, "", NESTING_LIMIT);
    assert Print(v, style, 0) + "" == Print(v, style, 0);
  }

  // ---- One line -------------------------------------------------------------

  lemma EscapeHasNoControl(s: string)
    ensures forall c <- Escape(s) :: c as int >= 0x20
  {
    if s == "" {
    } else {
      EscapeHasNoControl(s[1..]);
      assert forall c <- EscapeChar(s[0]) :: c as int >= 0x20;
    }
  }

  lemma DigitsAreOneLine(n: nat)
    ensures forall c <- Decimal(n) :: c as int >= 0x20
  {
    forall c | c in Decimal(n) ensures c as int >= 0x20 { assert IsDigit(c); }
  }

  /** Compact output is one line: it contains no control character at all. */
  lemma {:induction false} CompactIsOneLine(v: Json, level: nat)
    ensures forall c <- Print(v, Compact, level) :: c as int >= 0x20
    decreases v, 0
  {
    match v {
      case Str(s) => EscapeHasNoControl(s);
      case Num(n) => DigitsAreOneLine(n);
      case Neg(m) => DigitsAreOneLine(m);
      case Arr(items) => if items != [] { ItemsAreOneLine(items, level + 1); }
      case Obj(fields) => if fields != [] { FieldsAreOneLine(fields, level + 1); }
      case _ =>
    }
  }

  lemma {:induction false} ItemsAreOneLine(items: seq<Json>, level: nat)
    ensures forall c <- PrintItems(items, Compact, level) :: c as int >= 0x20
    decreases items, 1
  {
    if items == [] {
    } else {
      CompactIsOneLine(items[0], level);
      ItemsAreOneLine(items[1..], level);
    }
  }

  lemma {:induction false} FieldsAreOneLine(fields: seq<Field>, level: nat)
    ensures forall c <- PrintFields(fields, Compact, level) :: c as int >= 0x20
    decreases fields, 1
  {
    if fields == [] {
    } else {
      EscapeHasNoControl(fields[0].key);
      CompactIsOneLine(fields[0].value, level);
      FieldsAreOneLine(fields[1..], level);
    }
  }
}
