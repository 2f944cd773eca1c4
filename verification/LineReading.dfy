/** What the lines of a journal file are, from the texts and line endings it was
    put together from (src/store.rs). */
module LineReading {
  import opened Basics
  import opened Text
  import opened Journal
  import Utf8

  /** A line with its ending: text that ends in a newline or in a carriage return
      and a newline, or bytes that are not UTF-8. */
  datatype FileLine = TextLine(text: string, withReturn: bool) | BrokenLine(raw: bytes)

  /** The text holds no newline, and no carriage return that would be taken for part
      of the ending. */
  predicate IsFileLine(l: FileLine) {
    match l
    case TextLine(text, withReturn) => '\n' !in text && (withReturn || text == "" || text[|text| - 1] != '\r')
    case BrokenLine(raw) => NEWLINE !in raw && Utf8.Decode(raw) == None
  }

  function BytesOf(l: FileLine): bytes {
    match l
    case TextLine(text, withReturn) => Utf8.Encode(text) + (if withReturn then [13] else [])
    case BrokenLine(raw) => raw
  }

  function FileBytes(lines: seq<FileLine>, tail: string): bytes {
    if lines == [] then Utf8.Encode(tail) else BytesOf(lines[0]) + ([10] + FileBytes(lines[1..], tail))
  }

  /** The text without its ending; None where there is none. */
  function TextOf(l: FileLine): Option<string> {
    match l case TextLine(text, _) => Some(text) case BrokenLine(_) => None
  }

  function TextsOf(lines: seq<FileLine>): seq<Option<string>> {
    if lines == [] then [] else [TextOf(lines[0])] + TextsOf(lines[1..])
  }

  lemma ReturnDecodes(text: string)
    ensures Utf8.Decode(Utf8.Encode(text) + [13]) == Some(text + "\r")
  {
    hide Utf8.Decode;
    Utf8.DecodeEncode("\r");
    assert "\r"[1..] == "" && Utf8.EncodeChar('\r') == [13];
    assert Utf8.Encode("\r") == [13] + Utf8.Encode("") == [13];
    hide Utf8.Encode;
    Utf8.DecodeAfter(text, [13]);
  }

  lemma LineIsRead(l: FileLine)
    requires IsFileLine(l)
    ensures NEWLINE !in BytesOf(l) && LineText(BytesOf(l), true) == TextOf(l)
  {
    hide Utf8.Encode, Utf8.Decode;
    if l.TextLine? {
      Utf8.AsciiByteIsChar(l.text, NEWLINE);
      assert (10 as char) == '\n';
      if l.withReturn {
        ReturnDecodes(l.text);
        assert (l.text + "\r")[..|l.text|] == l.text;
      } else {
        Utf8.DecodeEncode(l.text);
        assert BytesOf(l) == Utf8.Encode(l.text);
      }
    }
  }

  lemma TailIsRead(tail: string)
    requires '\n' !in tail
    ensures Lines(Utf8.Encode(tail)) == if tail == "" then [] else [Some(tail)]
  {
    hide Utf8.Encode, Lines, LineEnd;
    var e := Utf8.Encode(tail);
    Utf8.AsciiByteIsChar(tail, NEWLINE);
    assert (10 as char) == '\n';
    Utf8.EncodedIsEmpty(tail);
    Utf8.DecodeEncode(tail);
    assert e[0..] == e && e[0..|e|] == e && e[|e|..] == [];
    FirstLine(e, 0, |e|);
    NoLines();
  }

  /** Reading gives back every text without its ending, and a last text that has
      none with every character it has; a blank line is a line too, and an empty
      rest is not. */
  lemma {:induction false} FileIsRead(lines: seq<FileLine>, tail: string)
    requires (forall l <- lines :: IsFileLine(l)) && '\n' !in tail
    ensures Lines(FileBytes(lines, tail)) == TextsOf(lines) + (if tail == "" then [] else [Some(tail)])
  {
    hide Utf8.Encode, Lines, LineEnd, LineText, IsFileLine, BytesOf, TextOf;
    if lines == [] {
      TailIsRead(tail);
    } else {
      var head, more := BytesOf(lines[0]), FileBytes(lines[1..], tail);
      var all := FileBytes(lines, tail);
      assert lines[0] in lines;
      LineIsRead(lines[0]);
      FileIsRead(lines[1..], tail);
      assert all[0..] == all && all[0..|head|] == head && all[|head|] == 10 && all[|head| + 1..] == more;
      FirstLine(all, 0, |head|);
      Assoc([TextOf(lines[0])], TextsOf(lines[1..]), if tail == "" then [] else [Some(tail)]);
    }
  }
}
