/** JSON as the archive uses serde_json: values whose objects are sorted maps,
    the compact and the pretty printer, and the parser with its nesting limit
    (RFC 8259; numbers are 64-bit integers, unsigned or negative). */
module Json {
  import opened Basics
  import opened Text
  import Hex

  datatype Json =
    | Null
    | Bool(b: bool)
    | Num(n: u64)
    | Neg(size: magnitude)
    | Str(s: string)
    | Arr(items: seq<Json>)
    | Obj(fields: seq<Field>)

  datatype Field = Field(key: string, value: Json)

  // ---- Objects as sorted maps -----------------------------------------------

  predicate Sorted(fields: seq<Field>) {
    forall i, j :: 0 <= i < j < |fields| ==> LexLess(fields[i].key, fields[j].key)
  }

  function Get(fields: seq<Field>, key: string): Option<Json> {
    if fields == [] then None
    else if fields[0].key == key then Some(fields[0].value)
    else Get(fields[1..], key)
  }

  function Insert(fields: seq<Field>, key: string, value: Json): (r: seq<Field>)
    ensures r != []
  {
    if fields == [] then [Field(key, value)]
    else if fields[0].key == key then [Field(key, value)] + fields[1..]
    else if LexLess(key, fields[0].key) then [Field(key, value)] + fields
    else [fields[0]] + Insert(fields[1..], key, value)
  }

  /** `json!({..})`: the listed members, inserted in turn. */
  function Object(members: seq<Field>): Json {
    Obj(InsertAll([], members))
  }

  function InsertAll(fields: seq<Field>, members: seq<Field>): seq<Field>
    decreases members
  {
    if members == [] then fields
    else InsertAll(Insert(fields, members[0].key, members[0].value), members[1..])
  }

  /** `value.get(key)`: only objects have members. */
  function Member(v: Json, key: string): Option<Json> {
    if v.Obj? then Get(v.fields, key) else None
  }

  function AsStr(v: Option<Json>): Option<string> {
    if v.Some? && v.value.Str? then Some(v.value.s) else None
  }

  function AsU64(v: Option<Json>): Option<u64> {
    if v.Some? && v.value.Num? then Some(v.value.n) else None
  }

  // ---- Shape ----------------------------------------------------------------

  predicate WellFormed(v: Json) {
    match v
    case Arr(items) => forall i :: 0 <= i < |items| ==> WellFormed(items[i])
    case Obj(fields) => Sorted(fields) && forall i :: 0 <= i < |fields| ==> WellFormed(fields[i].value)
    case _ => true
  }

  function Max(a: nat, b: nat): nat {
    if a >= b then a else b
  }

  /** How many arrays and objects are open at the deepest point. */
  function Depth(v: Json): nat
    decreases v, 0
  {
    match v
    case Arr(items) => 1 + ItemsDepth(items)
    case Obj(fields) => 1 + FieldsDepth(fields)
    case _ => 0
  }

  function ItemsDepth(items: seq<Json>): nat
    decreases items, 1
  {
    if items == [] then 0 else Max(Depth(items[0]), ItemsDepth(items[1..]))
  }

  function FieldsDepth(fields: seq<Field>): nat
    decreases fields, 1
  {
    if fields == [] then 0 else Max(Depth(fields[0].value), FieldsDepth(fields[1..]))
  }

  // ---- Printing -------------------------------------------------------------

  datatype Style = Compact | Pretty

  function EscapeChar(c: char): string {
    if c == '"' then "\\\""
    else if c == '\\' then "\\\\"
    else if c as int == 8 then "\\b"
    else if c as int == 9 then "\\t"
    else if c as int == 10 then "\\n"
    else if c as int == 12 then "\\f"
    else if c as int == 13 then "\\r"
    else if c as int < 0x20 then "\\u00" + [Hex.HexDigit(c as int / 16), Hex.HexDigit(c as int % 16)]
    else [c]
  }

  function Escape(s: string): string {
    if s == "" then "" else EscapeChar(s[0]) + Escape(s[1..])
  }

  function Quote(s: string): string {
    "\"" + Escape(s) + "\""
  }

  function Spaces(n: nat): (s: string)
    ensures |s| == n && forall i :: 0 <= i < n ==> s[i] == ' '
  {
    seq(n, _ => ' ')
  }

  function Break(style: Style, level: nat): string {
    if style == Pretty then "\n" + Spaces(2 * level) else ""
  }

  function Colon(style: Style): string {
    if style == Pretty then ": " else ":"
  }

  function Print(v: Json, style: Style, level: nat): string
    decreases v, 0
  {
    match v
    case Null => "null"
    case Bool(b) => if b then "true" else "false"
    case Num(n) => Decimal(n)
    case Neg(size) => "-" + Decimal(size)
    case Str(s) => Quote(s)
    case Arr(items) =>
      if items == [] then "[]"
      else "[" + PrintItems(items, style, level + 1) + Break(style, level) + "]"
    case Obj(fields) =>
      if fields == [] then "{}"
      else "{" + PrintFields(fields, style, level + 1) + Break(style, level) + "}"
  }

  function PrintItems(items: seq<Json>, style: Style, level: nat): string
    decreases items, 1
  {
    if items == [] then ""
    else Break(style, level) + Print(items[0], style, level)
         + (if |items| == 1 then "" else "," + PrintItems(items[1..], style, level))
  }

  function PrintFields(fields: seq<Field>, style: Style, level: nat): string
    decreases fields, 1
  {
    if fields == [] then ""
    else Break(style, level) + Quote(fields[0].key) + Colon(style) + Print(fields[0].value, style, level)
         + (if |fields| == 1 then "" else "," + PrintFields(fields[1..], style, level))
  }

  // ---- Parsing --------------------------------------------------------------

  /** A value and the text after it, or a syntax error. */
  datatype Parsed<+T> = Parsed(value: T, rest: string) | Bad

  predicate IsSpace(c: char) {
    c == ' ' || c == '\t' || c == '\n' || c == '\r'
  }

  function SkipSpace(s: string): (t: string)
    ensures |t| <= |s|
    ensures t != "" ==> !IsSpace(t[0])
  {
    if s != "" && IsSpace(s[0]) then SkipSpace(s[1..]) else s
  }

  function ParseLiteral(s: string, word: string, v: Json): Parsed<Json> {
    if word <= s then Parsed(v, s[|word|..]) else Bad
  }

  function DigitRun(s: string): (n: nat)
    ensures n <= |s| && AllDigits(s[..n])
    ensures n < |s| ==> !IsDigit(s[n])
  {
    if s != "" && IsDigit(s[0]) then
      assert s[..1 + DigitRun(s[1..])] == [s[0]] + s[1..][..DigitRun(s[1..])];
      1 + DigitRun(s[1..])
    else 0
  }

  function ParseNumber(s: string): Parsed<Json> {
    var n := DigitRun(s);
    if n == 0 || (n > 1 && s[0] == '0') || (n < |s| && s[n] in ".eE") || ValueOf(s[..n]) >= U64_LIMIT then Bad
    else Parsed(Num(ValueOf(s[..n])), s[n..])
  }

  /** After the minus sign; "-0" is a float, as is what does not fit. */
  function ParseNegative(s: string): Parsed<Json> {
    var n := DigitRun(s);
    if n == 0 || s[0] == '0' || (n < |s| && s[n] in ".eE") || ValueOf(s[..n]) > 0x8000_0000_0000_0000 then Bad
    else
      assert ValueOf(s[..n]) > 0 by { ValueOfNonzero(s[..n]); }
      Parsed(Neg(ValueOf(s[..n])), s[n..])
  }

  function Hex4(s: string): (r: Option<nat>)
    ensures r.Some? ==> |s| >= 4 && r.value < 0x1_0000
  {
    if |s| < 4 then None else
    match (Hex.HexNibble(s[0]), Hex.HexNibble(s[1]), Hex.HexNibble(s[2]), Hex.HexNibble(s[3]))
    case (Some(a), Some(b), Some(c), Some(d)) => Some(a * 4096 + b * 256 + c * 16 + d)
    case _ => None
  }

  /** The character after a backslash; `\u` pairs surrogates and refuses lone ones. */
  function ParseEscape(s: string): (r: Parsed<char>)
    ensures r.Parsed? ==> |r.rest| < |s|
  {
    if s == "" then Bad
    else match s[0]
    case '"' => Parsed('"', s[1..])
    case '\\' => Parsed('\\', s[1..])
    case '/' => Parsed('/', s[1..])
    case 'b' => Parsed(8 as char, s[1..])
    case 'f' => Parsed(12 as char, s[1..])
    case 'n' => Parsed(10 as char, s[1..])
    case 'r' => Parsed(13 as char, s[1..])
    case 't' => Parsed(9 as char, s[1..])
    case 'u' =>
      (match Hex4(s[1..])
       case None => Bad
       case Some(p) =>
         if 0xDC00 <= p < 0xE000 then Bad
         else if 0xD800 <= p < 0xDC00 then
           if |s| >= 7 && s[5] == '\\' && s[6] == 'u' then
             match Hex4(s[7..])
             case Some(q) =>
               if 0xDC00 <= q < 0xE000 then
                 Parsed((0x1_0000 + (p - 0xD800) * 1024 + (q - 0xDC00)) as char, s[11..])
               else Bad
             case None => Bad
           else Bad
         else Parsed(p as char, s[5..]))
    case _ => Bad
  }

  /** The rest of a string whose opening quote has been read. */
  function ParseString(s: string): (r: Parsed<string>)
    ensures r.Parsed? ==> |r.rest| < |s|
    decreases |s|
  {
    if s == "" then Bad
    else if s[0] == '"' then Parsed("", s[1..])
    else if s[0] == '\\' then
      match ParseEscape(s[1..])
      case Bad => Bad
      case Parsed(c, t) =>
        (match ParseString(t)
         case Bad => Bad
         case Parsed(str, rest) => Parsed([c] + str, rest))
    else if s[0] as int < 0x20 then Bad
    else
      match ParseString(s[1..])
      case Bad => Bad
      case Parsed(str, rest) => Parsed([s[0]] + str, rest)
  }

  /** A value after optional space. `room` is the nesting the parser still
      allows: opening an array or object uses one, and none may be the last. */
  function ParseValue(s: string, room: nat): (r: Parsed<Json>)
    ensures r.Parsed? ==> |r.rest| < |s|
    decreases |s|, 4
  {
    ParseToken(SkipSpace(s), room)
  }

  function ParseToken(t: string, room: nat): (r: Parsed<Json>)
    ensures r.Parsed? ==> |r.rest| < |t|
    decreases |t|, 3
  {
    if t == "" then Bad
    else if t[0] == 'n' then ParseLiteral(t, "null", Null)
    else if t[0] == 't' then ParseLiteral(t, "true", Bool(true))
    else if t[0] == 'f' then ParseLiteral(t, "false", Bool(false))
    else if IsDigit(t[0]) then ParseNumber(t)
    else if t[0] == '-' then ParseNegative(t[1..])
    else if t[0] == '"' then
      match ParseString(t[1..])
      case Bad => Bad
      case Parsed(str, rest) => Parsed(Str(str), rest)
    else if t[0] == '[' then ParseArray(t[1..], room)
    else if t[0] == '{' then ParseObject(t[1..], room)
    else Bad
  }

  function ParseArray(s: string, room: nat): (r: Parsed<Json>)
    ensures r.Parsed? ==> |r.rest| < |s| && r.value.Arr?
    decreases |s|, 6
  {
    if room <= 1 then Bad else
    var u := SkipSpace(s);
    if u != "" && u[0] == ']' then Parsed(Arr([]), u[1..]) else ParseItems(s, room - 1, [])
  }

  function ParseObject(s: string, room: nat): (r: Parsed<Json>)
    ensures r.Parsed? ==> |r.rest| < |s|
    decreases |s|, 6
  {
    if room <= 1 then Bad else
    var u := SkipSpace(s);
    if u != "" && u[0] == '}' then Parsed(Obj([]), u[1..]) else ParseFields(s, room - 1, [])
  }

  function ParseItems(s: string, room: nat, acc: seq<Json>): (r: Parsed<Json>)
    ensures r.Parsed? ==> |r.rest| < |s| && r.value.Arr?
    decreases |s|, 5
  {
    match ParseValue(s, room)
    case Bad => Bad
    case Parsed(v, after) =>
      var t := SkipSpace(after);
      if t == "" then Bad
      else if t[0] == ',' then ParseItems(t[1..], room, acc + [v])
      else if t[0] == ']' then Parsed(Arr(acc + [v]), t[1..])
      else Bad
  }

  /** A member's quoted key and its colon. */
  function ParseKey(s: string): (r: Parsed<string>)
    ensures r.Parsed? ==> |r.rest| < |s|
  {
    var t := SkipSpace(s);
    if t == "" || t[0] != '"' then Bad else
    match ParseString(t[1..])
    case Bad => Bad
    case Parsed(key, after) =>
      var u := SkipSpace(after);
      if u == "" || u[0] != ':' then Bad else Parsed(key, u[1..])
  }

  function ParseMember(s: string, room: nat): (r: Parsed<Field>)
    ensures r.Parsed? ==> |r.rest| < |s|
    decreases |s|, 4
  {
    match ParseKey(s)
    case Bad => Bad
    case Parsed(key, after) =>
      match ParseValue(after, room)
      case Bad => Bad
      case Parsed(v, rest) => Parsed(Field(key, v), rest)
  }

  function ParseFields(s: string, room: nat, acc: seq<Field>): (r: Parsed<Json>)
    ensures r.Parsed? ==> |r.rest| < |s|
    decreases |s|, 5
  {
    match ParseMember(s, room)
    case Bad => Bad
    case Parsed(f, after) =>
      var t := SkipSpace(after);
      if t == "" then Bad
      else if t[0] == ',' then ParseFields(t[1..], room, Insert(acc, f.key, f.value))
      else if t[0] == '}' then Parsed(Obj(Insert(acc, f.key, f.value)), t[1..])
      else Bad
  }

  const NESTING_LIMIT := 128

  /** `serde_json::from_str`: one value and nothing but space around it. */
  function ParseDocument(s: string): Option<Json> {
    match ParseValue(s, NESTING_LIMIT)
    case Bad => None
    case Parsed(v, rest) => if SkipSpace(rest) == "" then Some(v) else None
  }

  // ---- Sorted-map laws ------------------------------------------------------

  lemma {:induction false} InsertLookup(fields: seq<Field>, key: string, value: Json, k: string)
    ensures Get(Insert(fields, key, value), k) == if k == key then Some(value) else Get(fields, k)
  {
    if fields == [] || fields[0].key == key || LexLess(key, fields[0].key) {
    } else {
      InsertLookup(fields[1..], key, value, k);
    }
  }

  lemma {:induction false} InsertedKeys(fields: seq<Field>, key: string, value: Json)
    ensures forall f <- Insert(fields, key, value) :: f == Field(key, value) || f in fields
  {
    if fields == [] || fields[0].key == key || LexLess(key, fields[0].key) {
    } else {
      InsertedKeys(fields[1..], key, value);
    }
  }

  lemma {:induction false} InsertKeepsSorted(fields: seq<Field>, key: string, value: Json)
    requires Sorted(fields)
    ensures Sorted(Insert(fields, key, value))
  {
    if fields == [] {
    } else {
      var head, tail := fields[0], fields[1..];
      if head.key == key {
      } else if LexLess(key, head.key) {
        forall i | 0 <= i < |fields| ensures LexLess(key, fields[i].key) {
          if i > 0 { LexTransitive(key, head.key, fields[i].key); }
        }
      } else {
        LexTotal(key, head.key);
        InsertKeepsSorted(tail, key, value);
        InsertedKeys(tail, key, value);
        var rest := Insert(tail, key, value);
        forall i | 0 <= i < |rest| ensures LexLess(head.key, rest[i].key) {
          assert rest[i] in rest;
        }
      }
    }
  }

  lemma {:induction false} InsertLast(fields: seq<Field>, key: string, value: Json)
    requires forall f <- fields :: LexLess(f.key, key)
    ensures Insert(fields, key, value) == fields + [Field(key, value)]
  {
    if fields == [] {
    } else {
      LexAsymmetric(fields[0].key, key);
      assert fields[0] in fields;
      InsertLast(fields[1..], key, value);
      assert fields == [fields[0]] + fields[1..];
    }
  }

  lemma {:induction false} InsertAllSorted(fields: seq<Field>, members: seq<Field>)
    requires Sorted(fields)
    ensures Sorted(InsertAll(fields, members))
    decreases members
  {
    if members == [] {
    } else {
      InsertKeepsSorted(fields, members[0].key, members[0].value);
      InsertAllSorted(Insert(fields, members[0].key, members[0].value), members[1..]);
    }
  }

  /** The last listed member with a key wins; keys not listed keep their value. */
  function LastOf(members: seq<Field>, key: string): Option<Json> {
    if members == [] then None
    else if members[|members| - 1].key == key then Some(members[|members| - 1].value)
    else LastOf(members[..|members| - 1], key)
  }

  lemma {:induction false} LastOfCons(m: Field, members: seq<Field>, key: string)
    ensures LastOf([m] + members, key)
         == if LastOf(members, key).Some? then LastOf(members, key)
            else if m.key == key then Some(m.value) else None
  {
    var all := [m] + members;
    if members != [] {
      assert all[..|all| - 1] == [m] + members[..|members| - 1];
      LastOfCons(m, members[..|members| - 1], key);
    } else {
      assert all[..0] == [];
    }
  }

  lemma {:induction false} InsertAllLookup(fields: seq<Field>, members: seq<Field>, key: string)
    ensures Get(InsertAll(fields, members), key)
         == if LastOf(members, key).Some? then LastOf(members, key) else Get(fields, key)
    decreases members
  {
    if members == [] {
    } else {
      var m := members[0];
      InsertAllLookup(Insert(fields, m.key, m.value), members[1..], key);
      InsertLookup(fields, m.key, m.value, key);
      LastOfCons(m, members[1..], key);
      assert members == [m] + members[1..];
    }
  }

  predicate DistinctKeys(members: seq<Field>) {
    forall i, j :: 0 <= i < j < |members| ==> members[i].key != members[j].key
  }

  lemma {:induction false} LastOfDistinct(members: seq<Field>, i: nat)
    requires DistinctKeys(members) && i < |members|
    ensures LastOf(members, members[i].key) == Some(members[i].value)
  {
    if i >= |members| - 1 {
    } else {
      LastOfDistinct(members[..|members| - 1], i);
    }
  }

  lemma {:induction false} LastOfAbsent(members: seq<Field>, key: string)
    requires forall m <- members :: m.key != key
    ensures LastOf(members, key) == None
  {
    if members == [] {
    } else {
      LastOfAbsent(members[..|members| - 1], key);
    }
  }

  /** Reading back the `i`-th listed member of a `json!` object. */
  lemma ObjectMember(members: seq<Field>, i: nat)
    requires DistinctKeys(members) && i < |members|
    ensures Member(Object(members), members[i].key) == Some(members[i].value)
  {
    InsertAllLookup([], members, members[i].key);
    LastOfDistinct(members, i);
  }

  lemma {:induction false} InsertAllMembers(fields: seq<Field>, members: seq<Field>)
    ensures forall f <- InsertAll(fields, members) :: f in fields || f in members
    decreases members
  {
    if members == [] {
    } else {
      var m := members[0];
      InsertAllMembers(Insert(fields, m.key, m.value), members[1..]);
      InsertedKeys(fields, m.key, m.value);
    }
  }

  lemma ObjectWellFormed(members: seq<Field>)
    requires forall m <- members :: WellFormed(m.value)
    ensures WellFormed(Object(members))
  {
    InsertAllSorted([], members);
    InsertAllMembers([], members);
    var fields := InsertAll([], members);
    forall i | 0 <= i < |fields| ensures WellFormed(fields[i].value) {
      assert fields[i] in fields;
    }
  }

  lemma {:induction false} GetIsField(fields: seq<Field>, key: string) returns (i: nat)
    requires Get(fields, key).Some?
    ensures i < |fields| && fields[i].key == key && Get(fields, key) == Some(fields[i].value)
  {
    if fields[0].key == key {
      i := 0;
    } else {
      i := GetIsField(fields[1..], key);
      i := i + 1;
    }
  }

  lemma {:induction false} FieldsDepthBound(fields: seq<Field>, d: nat)
    ensures FieldsDepth(fields) <= d <==> forall f <- fields :: Depth(f.value) <= d
  {
    if fields == [] {
    } else {
      FieldsDepthBound(fields[1..], d);
      assert fields == [fields[0]] + fields[1..];
    }
  }

  /** An object is as deep as its deepest member. */
  lemma ObjectDepth(members: seq<Field>, d: nat)
    requires DistinctKeys(members)
    ensures Depth(Object(members)) <= 1 + d <==> forall m <- members :: Depth(m.value) <= d
  {
    var fields := InsertAll([], members);
    InsertAllMembers([], members);
    FieldsDepthBound(fields, d);
    forall m | m in members && (forall f <- fields :: Depth(f.value) <= d) ensures Depth(m.value) <= d {
      var i :| 0 <= i < |members| && members[i] == m;
      ObjectMember(members, i);
      var j := GetIsField(fields, m.key);
      assert fields[j] in fields;
    }
  }

  /** A member whose key precedes all the others is printed first. */
  lemma SmallestKeyFirst(members: seq<Field>, i: nat)
    requires DistinctKeys(members) && i < |members|
    requires forall j :: 0 <= j < |members| && j != i ==> LexLess(members[i].key, members[j].key)
    ensures Object(members).fields != [] && Object(members).fields[0] == members[i]
  {
    var fields := InsertAll([], members);
    InsertAllSorted([], members);
    InsertAllMembers([], members);
    ObjectMember(members, i);
    var k := GetIsField(fields, members[i].key);
    if k > 0 {
      assert fields[0] in fields;
      var j :| 0 <= j < |members| && members[j] == fields[0];
      LexAsymmetric(fields[0].key, fields[k].key);
    }
  }
}
