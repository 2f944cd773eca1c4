/** The language of the JSON parser, exactly: values in every spelling, with space
    wherever it may stand, up to the nesting limit (RFC 8259). */
module JsonGrammar {
  import opened Basics
  import opened Text
  import opened Json
  import opened JsonRoundTrip
  import opened JsonLexing
  import opened JsonStrings

  // ---- Spelled values -------------------------------------------------------

  datatype Node =
    | Plain(v: Json)
    | Quoted(pieces: seq<Piece>)
    | List(inner: string, items: seq<Item>)
    | Dict(inner: string, entries: seq<Entry>)

  /** A value with space around it. */
  datatype Item = Item(before: string, node: Node, after: string)

  /** A key with space around it, and a value with space around it. */
  datatype Entry = Entry(beforeKey: string, key: seq<Piece>, afterKey: string, before: string, node: Node,
      after: string)

  predicate IsPlain(v: Json) {
    v.Null? || v.Bool? || v.Num? || v.Neg?
  }

  function PlainText(v: Json): string
    requires IsPlain(v)
  {
    match v
    case Null => "null"
    case Bool(b) => if b then "true" else "false"
    case Num(n) => Decimal(n)
    case Neg(m) => "-" + Decimal(m)
  }

  /** Space and strings are what they should be, and the nesting fits. */
  predicate Legal(n: Node, room: nat)
    decreases n, 0
  {
    match n
    case Plain(v) => IsPlain(v)
    case Quoted(pieces) => ArePieces(pieces)
    case List(inner, items) => room > 1 && AllSpace(inner) && LegalItems(items, room - 1)
    case Dict(inner, entries) => room > 1 && AllSpace(inner) && LegalEntries(entries, room - 1)
  }

  predicate LegalItems(items: seq<Item>, room: nat)
    decreases items, 1
  {
    items != [] ==>
      && AllSpace(items[0].before) && Legal(items[0].node, room) && AllSpace(items[0].after)
      && LegalItems(items[1..], room)
  }

  predicate LegalEntries(entries: seq<Entry>, room: nat)
    decreases entries, 1
  {
    entries != [] ==>
      && AllSpace(entries[0].beforeKey) && ArePieces(entries[0].key) && AllSpace(entries[0].afterKey)
      && AllSpace(entries[0].before) && Legal(entries[0].node, room) && AllSpace(entries[0].after)
      && LegalEntries(entries[1..], room)
  }

  /** The value's text, then more text. */
  function SpellThen(n: Node, room: nat, rest: string): string
    requires Legal(n, room)
    decreases n, 0
  {
    match n
    case Plain(v) => PlainText(v) + rest
    case Quoted(pieces) => "\"" + PiecesThen(pieces, rest)
    case List(inner, items) =>
      "[" + (inner + (if items == [] then "]" + rest else ItemsThen(items, room - 1, rest)))
    case Dict(inner, entries) =>
      "{" + (inner + (if entries == [] then "}" + rest else EntriesThen(entries, room - 1, rest)))
  }

  function ItemsThen(items: seq<Item>, room: nat, rest: string): string
    requires items != [] && LegalItems(items, room)
    decreases items, 1
  {
    var i := items[0];
    i.before + SpellThen(i.node, room, i.after + (if |items| == 1 then "]" + rest
      else "," + ItemsThen(items[1..], room, rest)))
  }

  function EntriesThen(entries: seq<Entry>, room: nat, rest: string): string
    requires entries != [] && LegalEntries(entries, room)
    decreases entries, 1
  {
    var e := entries[0];
    e.beforeKey + ("\"" + PiecesThen(e.key, e.afterKey + (":" + (e.before + SpellThen(e.node, room, e.after
      + (if |entries| == 1 then "}" + rest else "," + EntriesThen(entries[1..], room, rest)))))))
  }

  function Meaning(n: Node): Json
    decreases n, 0
  {
    match n
    case Plain(v) => v
    case Quoted(pieces) => Str(CharsOf(pieces))
    case List(_, items) => Arr(ItemValues(items))
    case Dict(_, entries) => Object(EntryFields(entries))
  }

  function ItemValues(items: seq<Item>): seq<Json>
    decreases items, 1
  {
    if items == [] then [] else [Meaning(items[0].node)] + ItemValues(items[1..])
  }

  function EntryFields(entries: seq<Entry>): seq<Field>
    decreases entries, 1
  {
    if entries == [] then []
    else [Field(CharsOf(entries[0].key), Meaning(entries[0].node))] + EntryFields(entries[1..])
  }

  // ---- Every spelling is read -----------------------------------------------

  lemma SpellStart(n: Node, room: nat, rest: string)
    requires Legal(n, room)
    ensures var s := SpellThen(n, room, rest); s != "" && !IsSpace(s[0]) && s[0] != ']' && s[0] != '}'
  {
    hide ItemsThen, EntriesThen, PiecesThen, LegalItems, LegalEntries, ArePieces, AllSpace;
    if n.Plain? { assert SpellThen(n, room, rest)[0] == PlainText(n.v)[0]; }
  }

  lemma PlainReads(v: Json, rest: string, room: nat)
    requires IsPlain(v) && EndsValue(rest)
    ensures ParseToken(PlainText(v) + rest, room) == Parsed(v, rest)
  {
    hide ParseLiteral, ParseNumber, ParseNegative, ParseString, ParseArray, ParseObject, Decimal;
    var s := PlainText(v) + rest;
    assert s[0] == PlainText(v)[0];
    match v {
      case Num(n) => NumberParses(n, rest);
      case Neg(m) =>
        assert s[1..] == Decimal(m) + rest;
        NegativeParses(m, rest);
      case Bool(b) => WordParses(if b then "true" else "false", v, rest);
      case Null => WordParses("null", v, rest);
    }
  }

  lemma QuotedReads(pieces: seq<Piece>, rest: string, room: nat)
    requires ArePieces(pieces)
    ensures ParseToken("\"" + PiecesThen(pieces, rest), room) == Parsed(Str(CharsOf(pieces)), rest)
  {
    hide ParseString, PiecesThen, ParseArray, ParseObject;
    assert ("\"" + PiecesThen(pieces, rest))[1..] == PiecesThen(pieces, rest);
    PiecesRead(pieces, rest);
  }

  /** What may follow a value inside an array or object ends it. */
  lemma SpaceThenEnds(w: string, c: char, rest: string)
    requires AllSpace(w) && c in ",]}:"
    ensures EndsValue(w + ([c] + rest)) && SkipSpace(w + ([c] + rest)) == [c] + rest
  {
    hide SkipSpace;
    SkipAllSpace(w, [c] + rest);
    SkipNothing([c] + rest);
    if w != "" { assert (w + ([c] + rest))[0] == w[0]; }
  }

  lemma ValueReads(before: string, n: Node, room: nat, rest: string)
    requires AllSpace(before) && Legal(n, room)
    ensures ParseValue(before + SpellThen(n, room, rest), room) == ParseToken(SpellThen(n, room, rest), room)
  {
    hide ParseToken, SpellThen, Legal;
    SpellStart(n, room, rest);
    ValueAfterSpace(before, SpellThen(n, room, rest), room);
    SkipNothing(SpellThen(n, room, rest));
  }

  lemma {:induction false} NodeReads(n: Node, room: nat, rest: string)
    requires Legal(n, room) && EndsValue(rest)
    ensures ParseToken(SpellThen(n, room, rest), room) == Parsed(Meaning(n), rest)
    decreases n, 2
  {
    match n {
      case Plain(v) => PlainReads(v, rest, room);
      case Quoted(pieces) => QuotedReads(pieces, rest, room);
      case List(_, _) => ListReads(n, room, rest);
      case Dict(_, _) => DictReads(n, room, rest);
    }
  }

  lemma OpensList(s: string, room: nat)
    ensures ParseToken("[" + s, room) == ParseArray(s, room) && ParseToken("{" + s, room) == ParseObject(s, room)
  {
    hide ParseArray, ParseObject;
    assert ("[" + s)[1..] == s && ("{" + s)[1..] == s;
  }

  lemma {:induction false} ListReads(n: Node, room: nat, rest: string)
    requires n.List? && Legal(n, room)
    ensures ParseToken(SpellThen(n, room, rest), room) == Parsed(Meaning(n), rest)
    decreases n, 1
  {
    var inner, items := n.inner, n.items;
    if items == [] {
      OpensList(inner + ("]" + rest), room);
      hide ParseToken, SkipSpace;
      SpaceThenEnds(inner, ']', rest);
      assert ("]" + rest)[1..] == rest;
    } else {
      var s := ItemsThen(items, room - 1, rest);
      OpensList(inner + s, room);
      ItemsRead(items, room - 1, rest, []);
      ItemsStart(items, room - 1, rest);
      hide ParseToken, SkipSpace, ParseItems, ItemsThen, ItemValues;
      SkipAllSpace(inner, s);
      ItemsAfterSpace(inner, s, room - 1);
      assert [] + ItemValues(items) == ItemValues(items);
    }
  }

  /** Space in front of the first item belongs to it. */
  lemma ItemsAfterSpace(w: string, s: string, room: nat)
    requires AllSpace(w)
    ensures ParseItems(w + s, room, []) == ParseItems(s, room, [])
  {
    hide ParseValue, SkipSpace;
    ValueAfterSpace(w, s, room);
  }

  lemma ItemsStart(items: seq<Item>, room: nat, rest: string)
    requires items != [] && LegalItems(items, room)
    ensures var t := SkipSpace(ItemsThen(items, room, rest)); t != "" && t[0] != ']'
  {
    hide SpellThen, SkipSpace, Legal, AllSpace;
    var i := items[0];
    var more := i.after + (if |items| == 1 then "]" + rest else "," + ItemsThen(items[1..], room, rest));
    SkipAllSpace(i.before, SpellThen(i.node, room, more));
    SpellStart(i.node, room, more);
    SkipNothing(SpellThen(i.node, room, more));
  }

  /** A value that a closing bracket or a comma follows. */
  lemma ItemsClose(s: string, room: nat, acc: seq<Json>, v: Json, w: string, rest: string)
    requires ParseValue(s, room) == Parsed(v, w + ("]" + rest)) && AllSpace(w)
    ensures ParseItems(s, room, acc) == Parsed(Arr(acc + [v]), rest)
  {
    hide ParseValue, SkipSpace, AllSpace;
    SpaceThenEnds(w, ']', rest);
    assert ("]" + rest)[1..] == rest;
  }

  lemma ItemsGoOn(s: string, room: nat, acc: seq<Json>, v: Json, w: string, more: string)
    requires ParseValue(s, room) == Parsed(v, w + ("," + more)) && AllSpace(w)
    ensures ParseItems(s, room, acc) == ParseItems(more, room, acc + [v])
  {
    hide ParseValue, SkipSpace, AllSpace;
    SpaceThenEnds(w, ',', more);
    assert ("," + more)[1..] == more;
  }

  lemma ItemsUnfold(items: seq<Item>, room: nat, rest: string)
    requires items != [] && LegalItems(items, room)
    ensures var i := items[0];
            && ItemsThen(items, room, rest)
               == i.before + SpellThen(i.node, room, i.after + (if |items| == 1 then "]" + rest
                    else "," + ItemsThen(items[1..], room, rest)))
            && ItemValues(items) == (if |items| == 1 then [] + [Meaning(i.node)]
                                     else [Meaning(i.node)] + ItemValues(items[1..]))
  {
    hide SpellThen, Meaning, AllSpace;
  }

  lemma {:induction false} ItemsRead(items: seq<Item>, room: nat, rest: string, acc: seq<Json>)
    requires items != [] && LegalItems(items, room)
    ensures ParseItems(ItemsThen(items, room, rest), room, acc) == Parsed(Arr(acc + ItemValues(items)), rest)
    decreases items, 1
  {
    var i := items[0];
    hide ParseValue, ParseItems, ParseToken, SpellThen, ItemsThen, Meaning, ItemValues, EndsValue, AllSpace, SkipSpace;
    ItemsUnfold(items, room, rest);
    var s := ItemsThen(items, room, rest);
    if |items| == 1 {
      var next := i.after + ("]" + rest);
      SpaceThenEnds(i.after, ']', rest);
      ValueReads(i.before, i.node, room, next);
      NodeReads(i.node, room, next);
      ItemsClose(s, room, acc, Meaning(i.node), i.after, rest);
      assert ItemValues(items) == [Meaning(i.node)];
    } else {
      var more := ItemsThen(items[1..], room, rest);
      var next := i.after + ("," + more);
      SpaceThenEnds(i.after, ',', more);
      ValueReads(i.before, i.node, room, next);
      NodeReads(i.node, room, next);
      ItemsGoOn(s, room, acc, Meaning(i.node), i.after, more);
      ItemsRead(items[1..], room, rest, acc + [Meaning(i.node)]);
      Assoc(acc, [Meaning(i.node)], ItemValues(items[1..]));
    }
  }

  lemma {:induction false} DictReads(n: Node, room: nat, rest: string)
    requires n.Dict? && Legal(n, room)
    ensures ParseToken(SpellThen(n, room, rest), room) == Parsed(Meaning(n), rest)
    decreases n, 1
  {
    var inner, entries := n.inner, n.entries;
    if entries == [] {
      OpensList(inner + ("}" + rest), room);
      hide ParseToken, SkipSpace;
      SpaceThenEnds(inner, '}', rest);
      assert ("}" + rest)[1..] == rest;
    } else {
      var s := EntriesThen(entries, room - 1, rest);
      OpensList(inner + s, room);
      EntriesRead(entries, room - 1, rest, []);
      EntriesStart(entries, room - 1, rest);
      hide ParseToken, SkipSpace, ParseFields, EntriesThen, EntryFields;
      SkipAllSpace(inner, s);
      EntriesAfterSpace(inner, s, room - 1);
    }
  }

  lemma EntriesAfterSpace(w: string, s: string, room: nat)
    requires AllSpace(w)
    ensures ParseFields(w + s, room, []) == ParseFields(s, room, [])
  {
    hide ParseValue, SkipSpace, ParseString;
    SkipAllSpace(w, s);
  }

  lemma EntriesStart(entries: seq<Entry>, room: nat, rest: string)
    requires entries != [] && LegalEntries(entries, room)
    ensures var t := SkipSpace(EntriesThen(entries, room, rest)); t != "" && t[0] != '}'
  {
    hide SpellThen, SkipSpace, Legal, AllSpace, PiecesThen, ArePieces;
    var s := EntriesThen(entries, room, rest);
    var quoted := s[|entries[0].beforeKey|..];
    assert s == entries[0].beforeKey + quoted && quoted[0] == '"';
    SkipAllSpace(entries[0].beforeKey, quoted);
    SkipNothing(quoted);
  }

  lemma KeyReads(w: string, key: seq<Piece>, after: string, rest: string)
    requires AllSpace(w) && ArePieces(key) && AllSpace(after)
    ensures ParseKey(w + ("\"" + PiecesThen(key, after + (":" + rest)))) == Parsed(CharsOf(key), rest)
  {
    hide SkipSpace, ParseString, PiecesThen, ArePieces, AllSpace;
    var more := after + (":" + rest);
    var quoted := "\"" + PiecesThen(key, more);
    SkipAllSpace(w, quoted);
    SkipNothing(quoted);
    assert quoted[1..] == PiecesThen(key, more);
    PiecesRead(key, more);
    SpaceThenEnds(after, ':', rest);
    assert (":" + rest)[1..] == rest;
  }

  lemma FieldsClose(s: string, room: nat, acc: seq<Field>, f: Field, w: string, rest: string)
    requires ParseMember(s, room) == Parsed(f, w + ("}" + rest)) && AllSpace(w)
    ensures ParseFields(s, room, acc) == Parsed(Obj(Insert(acc, f.key, f.value)), rest)
  {
    hide ParseMember, SkipSpace, AllSpace, Insert;
    SpaceThenEnds(w, '}', rest);
    assert ("}" + rest)[1..] == rest;
  }

  lemma FieldsGoOn(s: string, room: nat, acc: seq<Field>, f: Field, w: string, more: string)
    requires ParseMember(s, room) == Parsed(f, w + ("," + more)) && AllSpace(w)
    ensures ParseFields(s, room, acc) == ParseFields(more, room, Insert(acc, f.key, f.value))
  {
    hide ParseMember, SkipSpace, AllSpace, Insert;
    SpaceThenEnds(w, ',', more);
    assert ("," + more)[1..] == more;
  }

  /** One entry up to what follows it. */
  function EntryThen(e: Entry, room: nat, next: string): string
    requires ArePieces(e.key) && Legal(e.node, room)
  {
    e.beforeKey + ("\"" + PiecesThen(e.key, e.afterKey + (":" + (e.before + SpellThen(e.node, room, e.after + next)))))
  }

  lemma EntriesUnfold(entries: seq<Entry>, room: nat, rest: string)
    requires entries != [] && LegalEntries(entries, room)
    ensures var e := entries[0];
            && EntriesThen(entries, room, rest)
               == EntryThen(e, room, if |entries| == 1 then "}" + rest else "," + EntriesThen(entries[1..], room, rest))
            && EntryFields(entries) == [Field(CharsOf(e.key), Meaning(e.node))]
                                       + (if |entries| == 1 then [] else EntryFields(entries[1..]))
  {
    hide SpellThen, Meaning, AllSpace, PiecesThen, ArePieces, CharsOf, Legal;
  }

  lemma {:induction false} EntryReads(e: Entry, room: nat, next: string)
    requires AllSpace(e.beforeKey) && ArePieces(e.key) && AllSpace(e.afterKey)
    requires AllSpace(e.before) && Legal(e.node, room) && EndsValue(e.after + next)
    ensures ParseMember(EntryThen(e, room, next), room)
         == Parsed(Field(CharsOf(e.key), Meaning(e.node)), e.after + next)
    decreases e.node, 3
  {
    hide ParseKey, ParseValue, ParseToken, SpellThen, Meaning, AllSpace, PiecesThen, ArePieces, CharsOf, Legal;
    hide EndsValue;
    KeyReads(e.beforeKey, e.key, e.afterKey, e.before + SpellThen(e.node, room, e.after + next));
    ValueReads(e.before, e.node, room, e.after + next);
    NodeReads(e.node, room, e.after + next);
  }

  lemma {:induction false} EntriesRead(entries: seq<Entry>, room: nat, rest: string, acc: seq<Field>)
    requires entries != [] && LegalEntries(entries, room)
    ensures ParseFields(EntriesThen(entries, room, rest), room, acc)
         == Parsed(Obj(InsertAll(acc, EntryFields(entries))), rest)
    decreases entries, 1
  {
    var e := entries[0];
    hide ParseMember, ParseFields, EntryThen, EntriesThen, Meaning, EntryFields, EndsValue, AllSpace, CharsOf, Insert;
    hide SkipSpace, ArePieces, InsertAll, Legal;
    EntriesUnfold(entries, room, rest);
    var f := Field(CharsOf(e.key), Meaning(e.node));
    var s, acc' := EntriesThen(entries, room, rest), Insert(acc, f.key, f.value);
    if |entries| == 1 {
      SpaceThenEnds(e.after, '}', rest);
      EntryReads(e, room, "}" + rest);
      FieldsClose(s, room, acc, f, e.after, rest);
      InsertFirst(acc, f, []);
      InsertNone(acc');
    } else {
      var more := EntriesThen(entries[1..], room, rest);
      SpaceThenEnds(e.after, ',', more);
      EntryReads(e, room, "," + more);
      FieldsGoOn(s, room, acc, f, e.after, more);
      InsertFirst(acc, f, EntryFields(entries[1..]));
      EntriesRead(entries[1..], room, rest, acc');
    }
  }

  lemma InsertFirst(acc: seq<Field>, f: Field, more: seq<Field>)
    ensures InsertAll(acc, [f] + more) == InsertAll(Insert(acc, f.key, f.value), more)
  {
    assert ([f] + more)[1..] == more;
  }

  lemma InsertNone(acc: seq<Field>)
    ensures InsertAll(acc, []) == acc
  {}

  // ---- Whatever is read is spelled ------------------------------------------

  lemma PlainIsSpelled(t: string, room: nat) returns (v: Json)
    requires ParseToken(t, room).Parsed? && t[0] != '"' && t[0] != '[' && t[0] != '{'
    ensures IsPlain(v) && v == ParseToken(t, room).value && t == PlainText(v) + ParseToken(t, room).rest
  {
    hide ParseNumber, ParseNegative, ParseString, ParseArray, ParseObject, Decimal, EndsValue;
    v := ParseToken(t, room).value;
    var rest := ParseToken(t, room).rest;
    if IsDigit(t[0]) {
      NumberExactly(t, v, rest);
    } else if t[0] == '-' {
      NegativeExactly(t[1..], v, rest);
      assert t == "-" + t[1..];
    }
  }

  lemma {:induction false} TokenIsSpelled(t: string, room: nat) returns (n: Node)
    requires ParseToken(t, room).Parsed?
    ensures Legal(n, room) && Meaning(n) == ParseToken(t, room).value
    ensures t == SpellThen(n, room, ParseToken(t, room).rest)
    decreases |t|, 3
  {
    hide ParseNumber, ParseNegative, ParseString, ParseArray, ParseObject, PiecesThen, ArePieces, CharsOf;
    assert t == [t[0]] + t[1..];
    if t[0] == '"' {
      var pieces := StringIsSpelled(t[1..]);
      n := Quoted(pieces);
    } else if t[0] == '[' {
      OpensList(t[1..], room);
      n := ArrayIsSpelled(t[1..], room);
    } else if t[0] == '{' {
      OpensList(t[1..], room);
      n := ObjectIsSpelled(t[1..], room);
    } else {
      var v := PlainIsSpelled(t, room);
      n := Plain(v);
    }
  }

  lemma {:induction false} ValueIsSpelled(s: string, room: nat) returns (before: string, n: Node)
    requires ParseValue(s, room).Parsed?
    ensures AllSpace(before) && Legal(n, room) && Meaning(n) == ParseValue(s, room).value
    ensures s == before + SpellThen(n, room, ParseValue(s, room).rest)
    decreases |s|, 4
  {
    hide ParseToken, SkipSpace, SpellThen, Legal, Meaning, AllSpace;
    before := SpaceConsumed(s);
    n := TokenIsSpelled(SkipSpace(s), room);
  }

  lemma {:induction false} ArrayIsSpelled(s: string, room: nat) returns (n: Node)
    requires ParseArray(s, room).Parsed?
    ensures Legal(n, room) && Meaning(n) == ParseArray(s, room).value
    ensures "[" + s == SpellThen(n, room, ParseArray(s, room).rest)
    decreases |s|, 6
  {
    hide ParseItems, SkipSpace, ItemsThen, LegalItems, ItemValues, AllSpace;
    var u := SkipSpace(s);
    if u != "" && u[0] == ']' {
      var w := SpaceConsumed(s);
      n := List(w, []);
      assert u == "]" + u[1..];
      NoItems(room - 1);
    } else {
      var items := ItemsAreSpelled(s, room - 1, []);
      n := List("", items);
      assert AllSpace("") by { NoSpace(); }
      assert "" + s == s && [] + ItemValues(items) == ItemValues(items);
    }
  }

  lemma NoItems(room: nat)
    ensures LegalItems([], room) && LegalEntries([], room) && ItemValues([]) == [] && EntryFields([]) == []
  {}

  lemma NoSpace()
    ensures AllSpace("")
  {}

  lemma {:induction false} ItemsAreSpelled(s: string, room: nat, acc: seq<Json>) returns (items: seq<Item>)
    requires ParseItems(s, room, acc).Parsed?
    ensures items != [] && LegalItems(items, room) && s == ItemsThen(items, room, ParseItems(s, room, acc).rest)
    ensures ParseItems(s, room, acc).value == Arr(acc + ItemValues(items))
    decreases |s|, 5
  {
    hide ParseValue, SkipSpace, SpellThen, Legal, Meaning, AllSpace, ItemsThen, LegalItems, ItemValues;
    var before, node := ValueIsSpelled(s, room);
    var v, rest := ParseValue(s, room).value, ParseValue(s, room).rest;
    var after := SpaceConsumed(rest);
    var t := SkipSpace(rest);
    assert t == [t[0]] + t[1..];
    var i := Item(before, node, after);
    if t[0] == ']' {
      items := [i];
      OneItem(i, room, t[1..]);
    } else {
      var more := ItemsAreSpelled(t[1..], room, acc + [v]);
      items := [i] + more;
      MoreItems(i, more, room, ParseItems(t[1..], room, acc + [v]).rest);
      Assoc(acc, [v], ItemValues(more));
    }
  }

  lemma OneItem(i: Item, room: nat, rest: string)
    requires AllSpace(i.before) && Legal(i.node, room) && AllSpace(i.after)
    ensures LegalItems([i], room) && ItemValues([i]) == [Meaning(i.node)]
    ensures ItemsThen([i], room, rest) == i.before + SpellThen(i.node, room, i.after + ("]" + rest))
  {
    hide SpellThen, Legal, Meaning, AllSpace;
    assert [i][1..] == [];
  }

  lemma MoreItems(i: Item, more: seq<Item>, room: nat, rest: string)
    requires AllSpace(i.before) && Legal(i.node, room) && AllSpace(i.after) && more != [] && LegalItems(more, room)
    ensures LegalItems([i] + more, room) && ItemValues([i] + more) == [Meaning(i.node)] + ItemValues(more)
    ensures ItemsThen([i] + more, room, rest)
         == i.before + SpellThen(i.node, room, i.after + ("," + ItemsThen(more, room, rest)))
  {
    hide SpellThen, Legal, Meaning, AllSpace;
    assert ([i] + more)[1..] == more;
  }

  lemma {:induction false} ObjectIsSpelled(s: string, room: nat) returns (n: Node)
    requires ParseObject(s, room).Parsed?
    ensures Legal(n, room) && Meaning(n) == ParseObject(s, room).value
    ensures "{" + s == SpellThen(n, room, ParseObject(s, room).rest)
    decreases |s|, 6
  {
    hide ParseFields, SkipSpace, EntriesThen, LegalEntries, EntryFields, AllSpace;
    var u := SkipSpace(s);
    if u != "" && u[0] == '}' {
      var w := SpaceConsumed(s);
      n := Dict(w, []);
      assert u == "}" + u[1..];
      NoItems(room - 1);
      InsertNone([]);
    } else {
      var entries := FieldsAreSpelled(s, room - 1, []);
      n := Dict("", entries);
      assert AllSpace("") by { NoSpace(); }
      assert "" + s == s;
    }
  }

  lemma KeyIsSpelled(s: string) returns (before: string, key: seq<Piece>, after: string)
    requires ParseKey(s).Parsed?
    ensures AllSpace(before) && ArePieces(key) && AllSpace(after) && CharsOf(key) == ParseKey(s).value
    ensures s == before + ("\"" + PiecesThen(key, after + (":" + ParseKey(s).rest)))
  {
    hide SkipSpace, ParseString, PiecesThen, ArePieces, AllSpace, CharsOf;
    before := SpaceConsumed(s);
    var t := SkipSpace(s);
    assert t == "\"" + t[1..];
    key := StringIsSpelled(t[1..]);
    var rest := ParseString(t[1..]).rest;
    after := SpaceConsumed(rest);
    var u := SkipSpace(rest);
    assert u == ":" + u[1..];
  }

  lemma {:induction false} MemberIsSpelled(s: string, room: nat) returns (e: Entry)
    requires ParseMember(s, room).Parsed?
    ensures AllSpace(e.beforeKey) && ArePieces(e.key) && AllSpace(e.afterKey) && AllSpace(e.before)
    ensures Legal(e.node, room) && e.after == "" && s == EntryThen(e, room, ParseMember(s, room).rest)
    ensures ParseMember(s, room).value == Field(CharsOf(e.key), Meaning(e.node))
    decreases |s|, 4
  {
    hide ParseKey, ParseValue, SpellThen, PiecesThen, ArePieces, AllSpace, CharsOf, Legal, Meaning;
    var beforeKey, key, afterKey := KeyIsSpelled(s);
    var before, node := ValueIsSpelled(ParseKey(s).rest, room);
    e := Entry(beforeKey, key, afterKey, before, node, "");
    var rest := ParseMember(s, room).rest;
    assert "" + rest == rest;
  }

  lemma {:induction false} FieldsAreSpelled(s: string, room: nat, acc: seq<Field>) returns (entries: seq<Entry>)
    requires ParseFields(s, room, acc).Parsed?
    ensures entries != [] && LegalEntries(entries, room)
    ensures s == EntriesThen(entries, room, ParseFields(s, room, acc).rest)
    ensures ParseFields(s, room, acc).value == Obj(InsertAll(acc, EntryFields(entries)))
    decreases |s|, 5
  {
    hide ParseMember, SkipSpace, EntryThen, Legal, Meaning, AllSpace, EntriesThen, LegalEntries, EntryFields, ArePieces;
    hide CharsOf, Insert, InsertAll;
    var bare := MemberIsSpelled(s, room);
    var f, rest := ParseMember(s, room).value, ParseMember(s, room).rest;
    var after := SpaceConsumed(rest);
    var t := SkipSpace(rest);
    assert t == [t[0]] + t[1..];
    var e := bare.(after := after);
    EntryTakesSpace(bare, room, after, t);
    var acc' := Insert(acc, f.key, f.value);
    if t[0] == '}' {
      entries := [e];
      OneEntry(e, room, t[1..]);
      InsertFirst(acc, f, []);
      InsertNone(acc');
    } else {
      var more := FieldsAreSpelled(t[1..], room, acc');
      entries := [e] + more;
      MoreEntries(e, more, room, ParseFields(t[1..], room, acc').rest);
      InsertFirst(acc, f, EntryFields(more));
    }
  }

  lemma EntryTakesSpace(e: Entry, room: nat, w: string, next: string)
    requires ArePieces(e.key) && Legal(e.node, room) && e.after == ""
    ensures EntryThen(e, room, w + next) == EntryThen(e.(after := w), room, next)
  {
    hide SpellThen, PiecesThen, ArePieces, Legal;
    assert "" + (w + next) == w + next;
  }

  predicate LegalEntry(e: Entry, room: nat) {
    && AllSpace(e.beforeKey) && ArePieces(e.key) && AllSpace(e.afterKey)
    && AllSpace(e.before) && Legal(e.node, room) && AllSpace(e.after)
  }

  lemma OneEntry(e: Entry, room: nat, rest: string)
    requires LegalEntry(e, room)
    ensures LegalEntries([e], room) && EntryFields([e]) == [Field(CharsOf(e.key), Meaning(e.node))] + []
    ensures EntriesThen([e], room, rest) == EntryThen(e, room, "}" + rest)
  {
    hide SpellThen, Legal, Meaning, AllSpace, PiecesThen, ArePieces, CharsOf;
    assert [e][1..] == [];
  }

  lemma MoreEntries(e: Entry, more: seq<Entry>, room: nat, rest: string)
    requires LegalEntry(e, room) && more != [] && LegalEntries(more, room)
    ensures LegalEntries([e] + more, room)
    ensures EntryFields([e] + more) == [Field(CharsOf(e.key), Meaning(e.node))] + EntryFields(more)
    ensures EntriesThen([e] + more, room, rest) == EntryThen(e, room, "," + EntriesThen(more, room, rest))
  {
    hide SpellThen, Legal, Meaning, AllSpace, PiecesThen, ArePieces, CharsOf;
    assert ([e] + more)[1..] == more;
  }

  // ---- Documents ------------------------------------------------------------

  /** A text is a document of a value exactly when it is a spelling of it: literals,
      64-bit integers without leading zeros, strings in any mixture of plain and
      escaped characters, arrays and objects nested less than 128 levels, the last of
      equal keys counting, with space around every token and nothing else. */
  lemma DocumentExactly(s: string, v: Json)
    ensures ParseDocument(s) == Some(v)
       <==> exists before, n, after ::
              && AllSpace(before) && Legal(n, NESTING_LIMIT) && AllSpace(after)
              && s == before + SpellThen(n, NESTING_LIMIT, after) && Meaning(n) == v
  {
    hide ParseValue, ParseToken, SkipSpace, SpellThen, Legal, Meaning, AllSpace;
    if ParseDocument(s) == Some(v) {
      var before, n := ValueIsSpelled(s, NESTING_LIMIT);
      var after := SpaceConsumed(ParseValue(s, NESTING_LIMIT).rest);
      assert after + "" == after;
    }
    forall before, n, after | AllSpace(before) && Legal(n, NESTING_LIMIT) && AllSpace(after)
                              && s == before + SpellThen(n, NESTING_LIMIT, after) && Meaning(n) == v
      ensures ParseDocument(s) == Some(v)
    {
      SpaceEnds(after);
      ValueReads(before, n, NESTING_LIMIT, after);
      NodeReads(n, NESTING_LIMIT, after);
    }
  }

  lemma SpaceEnds(w: string)
    requires AllSpace(w)
    ensures EndsValue(w) && SkipSpace(w) == ""
  {
    hide SkipSpace;
    assert w + "" == w;
    SkipAllSpace(w, "");
    SkipEmpty();
  }
}
