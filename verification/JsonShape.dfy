/** Everything the parser returns is a sorted-map value within the nesting
    limit, so a receipt taken from a log's reply is one too. */
module JsonShape {
  import opened Json

  ghost predicate Shaped(v: Json, room: nat) {
    WellFormed(v) && Depth(v) < room
  }

  lemma ScalarShaped(v: Json, room: nat)
    requires !v.Arr? && !v.Obj? && room >= 1
    ensures Shaped(v, room)
  {}

  lemma {:induction false} ItemsDepthBound(items: seq<Json>, d: nat)
    ensures ItemsDepth(items) <= d <==> forall v <- items :: Depth(v) <= d
  {
    if items != [] {
      ItemsDepthBound(items[1..], d);
      var head, tail := items[0], items[1..];
      assert items == [head] + tail;
      assert forall v :: v in items <==> v == head || v in tail;
      assert ItemsDepth(items) == Max(Depth(head), ItemsDepth(tail));
    }
  }

  lemma ArrayShaped(items: seq<Json>, room: nat)
    requires room >= 1 && forall v <- items :: Shaped(v, room)
    ensures Shaped(Arr(items), room + 1)
  {
    ItemsDepthBound(items, room - 1);
    forall i | 0 <= i < |items| ensures WellFormed(items[i]) { assert items[i] in items; }
  }

  lemma ObjectShaped(fields: seq<Field>, room: nat)
    requires room >= 1 && Sorted(fields) && forall f <- fields :: Shaped(f.value, room)
    ensures Shaped(Obj(fields), room + 1)
  {
    FieldsDepthBound(fields, room - 1);
    forall i | 0 <= i < |fields| ensures WellFormed(fields[i].value) { assert fields[i] in fields; }
  }

  lemma {:induction false} ValueShape(s: string, room: nat)
    requires room >= 1 && ParseValue(s, room).Parsed?
    ensures Shaped(ParseValue(s, room).value, room)
    decreases |s|, 4
  {
    hide ParseToken, Shaped;
    TokenShape(SkipSpace(s), room);
  }

  lemma {:induction false} TokenShape(t: string, room: nat)
    requires room >= 1 && ParseToken(t, room).Parsed?
    ensures Shaped(ParseToken(t, room).value, room)
    decreases |t|, 3
  {
    hide Shaped, ParseString, ParseArray, ParseObject;
    var v := ParseToken(t, room).value;
    if t[0] == '[' { ArrayShape(t[1..], room); }
    else if t[0] == '{' { ObjectKeepsShape(t[1..], room); }
    else { ScalarShaped(v, room); }
  }

  lemma {:induction false} ArrayShape(s: string, room: nat)
    requires ParseArray(s, room).Parsed?
    ensures Shaped(ParseArray(s, room).value, room)
    decreases |s|, 6
  {
    hide Shaped, ParseItems;
    var u := SkipSpace(s);
    if u != "" && u[0] == ']' { ArrayShaped([], room - 1); } else { ItemsShape(s, room - 1, []); }
  }

  lemma {:induction false} ItemsShape(s: string, room: nat, acc: seq<Json>)
    requires room >= 1 && ParseItems(s, room, acc).Parsed? && forall v <- acc :: Shaped(v, room)
    ensures Shaped(ParseItems(s, room, acc).value, room + 1)
    decreases |s|, 5
  {
    hide Shaped, ParseValue;
    ValueShape(s, room);
    var Parsed(v, after) := ParseValue(s, room);
    var t := SkipSpace(after);
    if t[0] == ',' { ItemsShape(t[1..], room, acc + [v]); } else { ArrayShaped(acc + [v], room); }
  }

  lemma {:induction false} ObjectKeepsShape(s: string, room: nat)
    requires ParseObject(s, room).Parsed?
    ensures Shaped(ParseObject(s, room).value, room)
    decreases |s|, 6
  {
    hide Shaped, ParseFields;
    var u := SkipSpace(s);
    if u != "" && u[0] == '}' { ObjectShaped([], room - 1); } else { FieldsShape(s, room - 1, []); }
  }

  lemma {:induction false} FieldsShape(s: string, room: nat, acc: seq<Field>)
    requires room >= 1 && ParseFields(s, room, acc).Parsed?
    requires Sorted(acc) && forall f <- acc :: Shaped(f.value, room)
    ensures Shaped(ParseFields(s, room, acc).value, room + 1)
    decreases |s|, 5
  {
    hide Shaped, ParseMember, Sorted, Insert;
    MemberShape(s, room);
    var Parsed(f, after) := ParseMember(s, room);
    var t := SkipSpace(after);
    InsertKeepsSorted(acc, f.key, f.value);
    InsertedKeys(acc, f.key, f.value);
    var more := Insert(acc, f.key, f.value);
    if t[0] == ',' { FieldsShape(t[1..], room, more); } else { ObjectShaped(more, room); }
  }

  lemma {:induction false} MemberShape(s: string, room: nat)
    requires room >= 1 && ParseMember(s, room).Parsed?
    ensures Shaped(ParseMember(s, room).value.value, room)
    decreases |s|, 4
  {
    hide Shaped, ParseValue, ParseKey;
    ValueShape(ParseKey(s).rest, room);
  }

  /** Parsed values are sorted maps all through and at most 127 levels deep. */
  lemma ParsedIsShaped(s: string)
    requires ParseDocument(s).Some?
    ensures WellFormed(ParseDocument(s).value) && Depth(ParseDocument(s).value) < NESTING_LIMIT
  {
    hide ParseValue;
    ValueShape(s, NESTING_LIMIT);
  }
}
