/** Known answers: what the formats look like, character for character, where the
    round trips alone would survive a consistent change of writer and reader. */
module KnownAnswers {
  import opened Text
  import opened Json
  import opened Records
  import Utf8

  /** One character of each length (section 3 of RFC 3629). */
  lemma Utf8Sample()
    ensures Utf8.EncodeChar('A') == [0x41]
    ensures Utf8.EncodeChar('\U{E9}') == [0xC3, 0xA9]
    ensures Utf8.EncodeChar('\U{20AC}') == [0xE2, 0x82, 0xAC]
    ensures Utf8.EncodeChar('\U{1F600}') == [0xF0, 0x9F, 0x98, 0x80]
  {}

  /** The 25 characters of the White_Space property (PropList.txt of Unicode 15). */
  const WHITE_SPACE := {
    0x9, 0xA, 0xB, 0xC, 0xD, 0x20, 0x85, 0xA0, 0x1680, 0x2000, 0x2001, 0x2002, 0x2003, 0x2004, 0x2005, 0x2006, 0x2007,
    0x2008, 0x2009, 0x200A, 0x2028, 0x2029, 0x202F, 0x205F, 0x3000
  }

  lemma WhiteSpaceSample(c: char)
    ensures IsWhitespace(c) <==> c as int in WHITE_SPACE
  {}

  /** Only four of them may stand between the tokens of JSON (section 2 of RFC 8259). */
  lemma JsonSpaceSample(c: char)
    ensures IsSpace(c) <==> c as int in {0x20, 0x09, 0x0A, 0x0D}
  {}

  lemma IdSample()
    ensures SnapshotIdOf(42) == "s-000000000042"
  {
    assert Decimal(42) == "42" by { assert Decimal(4) == "4"; }
    hide Decimal;
    assert Zeros(10) == "0000000000";
  }

  /** Quotes, backslashes and control characters are escaped, in the shortest form,
      and nothing else is (section 7 of RFC 8259). */
  lemma EscapeSample()
    ensures EscapeChar('"') == "\\\"" && EscapeChar('\\') == "\\\\" && EscapeChar('\n') == "\\n"
    ensures EscapeChar('\r') == "\\r" && EscapeChar('\t') == "\\t"
    ensures EscapeChar('\U{8}') == "\\b" && EscapeChar('\U{C}') == "\\f" && EscapeChar('\U{1F}') == "\\u001f"
    ensures forall c: char :: c as int >= 0x20 && c != '"' && c != '\\' ==> EscapeChar(c) == [c]
  {}

  const ITEMS := [Num(10), Null]
  const FIELDS := [Field("a", Arr(ITEMS)), Field("b", Obj([]))]

  lemma Quoted()
    ensures Quote("a") == "\"a\"" && Quote("b") == "\"b\""
  {
    assert Escape("a") == "a" + Escape("a"[1..]) && Escape("b") == "b" + Escape("b"[1..]);
  }

  lemma Ten()
    ensures Decimal(10) == "10"
  {
    assert Decimal(1) == "1";
  }

  lemma PlainItems(style: Style, level: nat)
    ensures PrintItems(ITEMS, style, level) == Break(style, level) + "10" + ("," + (Break(style, level) + "null"))
  {
    Ten();
    hide Break, Decimal;
    assert ITEMS[1..] == [Null];
    assert PrintItems([Null], style, level) == Break(style, level) + "null" + "";
    assert Print(Num(10), style, level) == "10";
  }

  lemma PlainFields(style: Style, level: nat)
    ensures PrintFields(FIELDS, style, level)
         == Break(style, level) + "\"a\"" + Colon(style)
            + ("[" + PrintItems(ITEMS, style, level + 1) + Break(style, level) + "]")
            + ("," + (Break(style, level) + "\"b\"" + Colon(style) + "{}"))
  {
    Quoted();
    hide Break, Colon, Quote, PrintItems;
    var last := [Field("b", Obj([]))];
    assert FIELDS[1..] == last;
    assert Print(Obj([]), style, level) == "{}";
    assert PrintFields(last, style, level) == Break(style, level) + "\"b\"" + Colon(style) + "{}" + "";
    assert Print(Arr(ITEMS), style, level) == "[" + PrintItems(ITEMS, style, level + 1) + Break(style, level) + "]";
  }

  lemma CompactItems()
    ensures PrintItems(ITEMS, Compact, 2) == "10,null"
  {
    PlainItems(Compact, 2);
    hide PrintItems;
    assert "" + "null" == "null";
  }

  lemma CompactSample()
    ensures Print(Obj(FIELDS), Compact, 0) == "{" + ("\"a\":" + "[10,null]" + ("," + "\"b\":{}")) + "}"
  {
    PlainFields(Compact, 1);
    CompactItems();
    hide PrintFields, PrintItems;
    assert Print(Obj(FIELDS), Compact, 0) == "{" + PrintFields(FIELDS, Compact, 1) + Break(Compact, 0) + "}";
    hide Print;
    assert "" + "\"a\"" + ":" == "\"a\":" && "[" + "10,null" + "" + "]" == "[10,null]";
    assert "" + "\"b\"" + ":" + "{}" == "\"b\":{}";
  }

  /** A line for each item and member, two spaces a level, a space behind each colon. */
  lemma PrettySample()
    ensures Print(Obj(FIELDS), Pretty, 0)
         == "{" + ("\n  " + "\"a\"" + ": " + ("[" + ("\n    " + "10" + ("," + ("\n    " + "null"))) + "\n  " + "]")
                   + ("," + ("\n  " + "\"b\"" + ": " + "{}"))) + "\n" + "}"
  {
    PlainFields(Pretty, 1);
    PlainItems(Pretty, 2);
    hide PrintFields, PrintItems;
    assert Print(Obj(FIELDS), Pretty, 0) == "{" + PrintFields(FIELDS, Pretty, 1) + Break(Pretty, 0) + "}";
    Breaks();
    hide Break, Print;
  }

  lemma Breaks()
    ensures Break(Pretty, 0) == "\n" && Break(Pretty, 1) == "\n  " && Break(Pretty, 2) == "\n    "
  {
    assert Spaces(0) == "" && Spaces(2) == "  " && Spaces(4) == "    ";
  }
}
