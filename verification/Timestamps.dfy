/** The RFC 3339 codec of src/time.rs. An instant is a count of seconds since
    1970-01-01T00:00:00Z. */
module Timestamps {
  import opened Basics
  import opened Text
  import opened Calendar

  // ---- Parsing --------------------------------------------------------------

  function Digits(b: string, pos: nat, len: nat): Option<nat> {
    if pos + len <= |b| && AllDigits(b[pos..pos + len]) then Some(ValueOf(b[pos..pos + len])) else None
  }

  function ParseDate(b: string): Option<Date> {
    if |b| < 10 then None else
    match (Digits(b, 0, 4), Digits(b, 5, 2), Digits(b, 8, 2))
    case (Some(year), Some(month), Some(day)) =>
      if b[4] == '-' && b[7] == '-' && Calendar.Valid(Date(year, month, day)) then Some(Date(year, month, day))
        else None
    case _ => None
  }

  function SkipDigits(b: string, pos: nat): (end: nat)
    requires pos <= |b|
    ensures pos <= end <= |b| && AllDigits(b[pos..end])
    ensures end < |b| ==> !IsDigit(b[end])
    decreases |b| - pos
  {
    if pos < |b| && IsDigit(b[pos]) then SkipDigits(b, pos + 1) else pos
  }

  /** The optional time of day: where it ends and the second of the day. */
  function ParseClock(b: string): (r: Option<(nat, nat)>)
    requires |b| >= 10
    ensures r.Some? ==> 10 <= r.value.0 <= |b|
  {
    if |b| > 10 && b[10] in "Tt " then
      if |b| < 19 then None else
      match (Digits(b, 11, 2), Digits(b, 14, 2), Digits(b, 17, 2))
      case (Some(hour), Some(min), Some(sec)) =>
        if b[13] == ':' && b[16] == ':' && hour <= 23 && min <= 59 && sec <= 59 then
          var end := if |b| > 19 && b[19] == '.' then SkipDigits(b, 20) else 19;
          Some((end, hour * 3_600 + min * 60 + sec))
        else None
      case _ => None
    else Some((10, 0))
  }

  /** The optional zone, which must reach the end of the input. */
  function ParseZone(b: string, pos: nat): Option<int>
    requires pos <= |b|
  {
    if pos == |b| then Some(0)
    else if b[pos] in "Zz" then (if pos + 1 == |b| then Some(0) else None)
    else if b[pos] in "+-" then
      var sign := if b[pos] == '-' then -1 else 1;
      match Digits(b, pos + 1, 2)
      case None => None
      case Some(oh) =>
        var next := if pos + 3 < |b| && b[pos + 3] == ':' then pos + 4 else pos + 3;
        match Digits(b, next, 2)
        case None => None
        case Some(om) =>
          if oh <= 23 && om <= 59 && next + 2 == |b| then Some(sign * (oh * 3_600 + om * 60)) else None
    else None
  }

  function Parse(b: string): Option<int> {
    match ParseDate(b)
    case None => None
    case Some(date) =>
      match ParseClock(b)
      case None => None
      case Some((pos, second)) =>
        match ParseZone(b, pos)
        case None => None
        case Some(offset) => Some(DaysFromCivil(date) * 86_400 + second - offset)
  }

  lemma NotDigits(b: string, pos: nat, len: nat, i: nat)
    requires pos <= i < pos + len <= |b| && !IsDigit(b[i])
    ensures Digits(b, pos, len) == None
  {
    assert b[pos..pos + len][i - pos] == b[i];
  }

  lemma NoDigits(b: string, pos: nat)
    requires pos <= |b|
    ensures Digits(b, pos, 0) == Some(0)
  {
    assert b[pos..pos] == "";
  }

  lemma OneMoreDigit(b: string, pos: nat, n: nat)
    requires pos + n < |b| && IsDigit(b[pos + n]) && Digits(b, pos, n).Some?
    ensures Digits(b, pos, n + 1) == Some(Digits(b, pos, n).value * 10 + DigitValue(b[pos + n]))
  {
    ValueOfSnoc(b[pos..pos + n], b[pos + n]);
    assert b[pos..pos + (n + 1)] == b[pos..pos + n] + [b[pos + n]];
  }

  method ReadDigits(b: string, pos: nat, len: nat) returns (r: Option<nat>)
    ensures r == Digits(b, pos, len)
  {
    if pos + len > |b| { return None; }
    hide Digits, IsDigit;
    var v: nat := 0;
    NoDigits(b, pos);
    for i := pos to pos + len
      invariant Digits(b, pos, i - pos) == Some(v)
    {
      if !IsDigit(b[i]) {
        NotDigits(b, pos, len, i);
        return None;
      }
      OneMoreDigit(b, pos, i - pos);
      v := v * 10 + DigitValue(b[i]);
    }
    return Some(v);
  }

  /** `Timestamp::parse` as the source runs it: a cursor over the input. Every
      index is checked to be in range, for every input. */
  method ParseTimestamp(b: string) returns (r: Option<int>)
    ensures r == Parse(b)
  {
    hide DaysFromCivil;
    if |b| < 10 { return None; }
    var year := ReadDigits(b, 0, 4);
    if year.None? || b[4] != '-' { return None; }
    var month := ReadDigits(b, 5, 2);
    if month.None? || b[7] != '-' { return None; }
    var day := ReadDigits(b, 8, 2);
    if day.None? || !(1 <= month.value <= 12) { return None; }
    if day.value < 1 || day.value > DaysInMonth(year.value, month.value) { return None; }
    var date := Date(year.value, month.value, day.value);
    assert ParseDate(b) == Some(date);
    hide ParseDate, DaysInMonth, Calendar.Valid;
    var clock := ReadClockAt(b);
    if clock.None? { return None; }
    var (pos, second) := clock.value;
    hide ParseClock;
    var offset := ReadZoneAt(b, pos);
    if offset.None? { return None; }
    return Some(DaysFromCivil(date) * 86_400 + second - offset.value);
  }

  /** The time-of-day stretch of `Timestamp::parse`. */
  method ReadClockAt(b: string) returns (r: Option<(nat, nat)>)
    requires |b| >= 10
    ensures r == ParseClock(b)
    ensures r.Some? ==> r.value.0 <= |b|
  {
    var pos := 10;
    var hour, min, sec := Some(0), Some(0), Some(0);
    if |b| > pos && (b[pos] == 'T' || b[pos] == 't' || b[pos] == ' ') {
      if |b| < pos + 9 { return None; }
      hour := ReadDigits(b, pos + 1, 2);
      if hour.None? || b[pos + 3] != ':' { return None; }
      min := ReadDigits(b, pos + 4, 2);
      if min.None? || b[pos + 6] != ':' { return None; }
      sec := ReadDigits(b, pos + 7, 2);
      if sec.None? || hour.value > 23 || min.value > 59 || sec.value > 59 { return None; }
      pos := pos + 9;
      if |b| > pos && b[pos] == '.' {
        pos := pos + 1;
        while pos < |b| && IsDigit(b[pos])
          invariant 20 <= pos <= |b|
          invariant SkipDigits(b, pos) == SkipDigits(b, 20)
        {
          pos := pos + 1;
        }
      }
    }
    return Some((pos, hour.value * 3_600 + min.value * 60 + sec.value));
  }

  /** The zone stretch of `Timestamp::parse`, to the end of the input. */
  method ReadZoneAt(b: string, start: nat) returns (r: Option<int>)
    requires start <= |b|
    ensures r == ParseZone(b, start)
  {
    var pos := start;
    var offset: int := 0;
    if pos < |b| {
      if b[pos] == 'Z' || b[pos] == 'z' {
        pos := pos + 1;
      } else if b[pos] == '+' || b[pos] == '-' {
        var sign: int := if b[pos] == '-' then -1 else 1;
        pos := pos + 1;
        var oh := ReadDigits(b, pos, 2);
        if oh.None? { return None; }
        pos := pos + 2;
        if pos < |b| && b[pos] == ':' { pos := pos + 1; }
        var om := ReadDigits(b, pos, 2);
        if om.None? { return None; }
        pos := pos + 2;
        if oh.value > 23 || om.value > 59 { return None; }
        offset := sign * (oh.value * 3_600 + om.value * 60);
      } else {
        return None;
      }
      if pos != |b| { return None; }
    }
    return Some(offset);
  }

  // ---- The accepted language ------------------------------------------------

  datatype Clock = Clock(separator: char, hour: nat, minute: nat, second: nat, fraction: Option<string>)
  datatype Zone = Unzoned | Zulu(letter: char) | Offset(sign: char, hours: nat, colon: bool, minutes: nat)
  datatype Spelling = Spelling(date: Date, clock: Option<Clock>, zone: Zone)

  ghost predicate WellSpelledClock(k: Option<Clock>) {
    k.Some? ==>
      var c := k.value;
      && c.separator in "Tt " && c.hour <= 23 && c.minute <= 59 && c.second <= 59
      && (c.fraction.Some? ==> AllDigits(c.fraction.value))
  }

  ghost predicate WellSpelledZone(z: Zone) {
    && (z.Zulu? ==> z.letter in "Zz")
    && (z.Offset? ==> z.sign in "+-" && z.hours <= 23 && z.minutes <= 59)
  }

  ghost predicate WellSpelled(sp: Spelling) {
    && 0 <= sp.date.year <= 9999 && Calendar.Valid(sp.date)
    && WellSpelledClock(sp.clock) && WellSpelledZone(sp.zone)
  }

  ghost function SpellDate(d: Date): string
    requires d.year >= 0 && d.month >= 0 && d.day >= 0
  {
    Pad(d.year, 4) + "-" + Pad(d.month, 2) + "-" + Pad(d.day, 2)
  }

  ghost function SpellClock(k: Option<Clock>): string {
    match k
    case None => ""
    case Some(c) =>
      [c.separator] + Pad(c.hour, 2) + ":" + Pad(c.minute, 2) + ":" + Pad(c.second, 2)
      + (match c.fraction case None => "" case Some(f) => "." + f)
  }

  ghost function SpellZone(z: Zone): string {
    match z
    case Unzoned => ""
    case Zulu(l) => [l]
    case Offset(sign, h, colon, m) => [sign] + Pad(h, 2) + (if colon then ":" else "") + Pad(m, 2)
  }

  ghost function Spell(sp: Spelling): string
    requires WellSpelled(sp)
  {
    SpellDate(sp.date) + SpellClock(sp.clock) + SpellZone(sp.zone)
  }

  ghost function ZoneOffset(z: Zone): int {
    if z.Offset? then (if z.sign == '-' then -1 else 1) * (z.hours * 3_600 + z.minutes * 60) else 0
  }

  /** The instant a spelling denotes: separators, letter case, the zone's
      absence, its colon and the fraction play no part. */
  ghost function Instant(sp: Spelling): int {
    DaysFromCivil(sp.date) * 86_400 + SecondOfDay(sp.clock) - ZoneOffset(sp.zone)
  }

  ghost function SecondOfDay(k: Option<Clock>): nat {
    match k case None => 0 case Some(c) => c.hour * 3_600 + c.minute * 60 + c.second
  }

  lemma Pad2(n: nat)
    requires n <= 99
    ensures |Pad(n, 2)| == 2 && ValueOf(Pad(n, 2)) == n
  {
    PadLength(n, 2);
    PadValue(n, 2);
    assert Pow10(2) == 100;
  }

  lemma Pad4(n: nat)
    ensures |Pad(n, 4)| == 4 <==> n <= 9999
    ensures ValueOf(Pad(n, 4)) == n
  {
    PadLength(n, 4);
    PadValue(n, 4);
    assert Pow10(4) == 10 * Pow10(3) && Pow10(3) == 10 * Pow10(2) && Pow10(2) == 100;
  }

  lemma DigitsAt(b: string, pos: nat, len: nat, d: string)
    requires pos + len <= |b| && b[pos..pos + len] == d && AllDigits(d)
    ensures Digits(b, pos, len) == Some(ValueOf(d))
  {}

  lemma SpelledDate(d: Date, rest: string)
    requires 0 <= d.year <= 9999 && Calendar.Valid(d)
    ensures |SpellDate(d)| == 10
    ensures ParseDate(SpellDate(d) + rest) == Some(d)
  {
    var b := SpellDate(d) + rest;
    Pad4(d.year);
    Pad2(d.month);
    Pad2(d.day);
    assert b[0..4] == Pad(d.year, 4);
    assert b[5..7] == Pad(d.month, 2);
    assert b[8..10] == Pad(d.day, 2);
    assert b[4] == '-' && b[7] == '-';
  }

  lemma SkipsExactly(b: string, pos: nat, end: nat)
    requires pos <= end <= |b| && AllDigits(b[pos..end]) && (end < |b| ==> !IsDigit(b[end]))
    ensures SkipDigits(b, pos) == end
    decreases end - pos
  {
    if pos < end {
      assert b[pos] == b[pos..end][0];
      assert b[pos + 1..end] == b[pos..end][1..];
      SkipsExactly(b, pos + 1, end);
    }
  }

  lemma ClockFields(c: Clock)
    requires c.hour <= 23 && c.minute <= 59 && c.second <= 59
    ensures var s := SpellClock(Some(c));
            && |s| >= 9 && s[0] == c.separator && s[3] == ':' && s[6] == ':'
            && s[1..3] == Pad(c.hour, 2) && s[4..6] == Pad(c.minute, 2) && s[7..9] == Pad(c.second, 2)
            && s[9..] == (match c.fraction case None => "" case Some(f) => "." + f)
  {
    Pad2(c.hour);
    Pad2(c.minute);
    Pad2(c.second);
  }

  lemma SpelledClock(d: string, c: Clock, z: string)
    requires |d| == 10 && WellSpelledClock(Some(c))
    requires z == "" || z[0] in "Zz+-"
    ensures var k := SpellClock(Some(c));
            ParseClock(d + k + z) == Some((10 + |k|, SecondOfDay(Some(c))))
  {
    hide Pad, ValueOf, Digits, SpellClock;
    var k := SpellClock(Some(c));
    var b := d + k + z;
    ClockFields(c);
    assert forall i :: 0 <= i < |k| ==> b[10 + i] == k[i];
    assert b[11..13] == k[1..3] && b[14..16] == k[4..6] && b[17..19] == k[7..9];
    Pad2(c.hour);
    Pad2(c.minute);
    Pad2(c.second);
    DigitsAt(b, 11, 2, Pad(c.hour, 2));
    DigitsAt(b, 14, 2, Pad(c.minute, 2));
    DigitsAt(b, 17, 2, Pad(c.second, 2));
    if c.fraction.Some? {
      assert b[19] == k[9..][0] == '.';
      assert b[20..10 + |k|] == k[9..][1..] == c.fraction.value;
      SkipsExactly(b, 20, 10 + |k|);
    } else {
      assert |k| == 9;
      assert z != "" ==> b[19] == z[0];
    }
  }

  lemma SpelledOffset(b: string, n: nat, z: Zone)
    requires WellSpelledZone(z) && z.Offset? && n <= |b| && b[n..] == SpellZone(z)
    ensures var next := if z.colon then n + 4 else n + 3;
            && next + 2 == |b| && b[n] == z.sign
            && Digits(b, n + 1, 2) == Some(z.hours) && Digits(b, next, 2) == Some(z.minutes)
            && (b[n + 3] == ':' <==> z.colon)
  {
    hide ValueOf, Pad;
    var t, h, m := SpellZone(z), Pad(z.hours, 2), Pad(z.minutes, 2);
    Pad2(z.hours);
    Pad2(z.minutes);
    var next := if z.colon then 4 else 3;
    assert t[1..3] == h && t[next..next + 2] == m;
    DropThenSlice(b, n, 1, 3);
    DropThenSlice(b, n, next, next + 2);
    DigitsAt(b, n + 1, 2, h);
    DigitsAt(b, n + next, 2, m);
    assert b[n] == b[n..][0] && b[n + 3] == b[n..][3];
    assert !z.colon ==> t[3] == m[0];
  }

  lemma SpelledZone(b: string, n: nat, z: Zone)
    requires WellSpelledZone(z) && n <= |b| && b[n..] == SpellZone(z)
    ensures ParseZone(b, n) == Some(ZoneOffset(z))
  {
    hide Digits;
    match z {
      case Unzoned =>
      case Zulu(_) => assert b[n] == b[n..][0];
      case Offset(sign, h, colon, m) =>
        SpelledOffset(b, n, z);
        hide SpellZone;
    }
  }

  lemma SpelledClockOrNone(d: string, k: Option<Clock>, z: Zone)
    requires |d| == 10 && WellSpelledClock(k) && WellSpelledZone(z)
    ensures ParseClock(d + SpellClock(k) + SpellZone(z)) == Some((10 + |SpellClock(k)|, SecondOfDay(k)))
  {
    hide Pad, ValueOf;
    if k.Some? {
      SpelledClock(d, k.value, SpellZone(z));
    } else {
      var b := d + "" + SpellZone(z);
      assert SpellZone(z) != "" ==> b[10] == SpellZone(z)[0];
    }
  }

  /** Every well-formed spelling parses, to the instant it denotes. */
  lemma SpellingParses(sp: Spelling)
    requires WellSpelled(sp)
    ensures Parse(Spell(sp)) == Some(Instant(sp))
  {
    hide DaysFromCivil, ParseDate, ParseClock, ParseZone, SpellDate, SpellClock, SpellZone, SecondOfDay, ZoneOffset;
    hide Pad;
    var d, k, z := SpellDate(sp.date), SpellClock(sp.clock), SpellZone(sp.zone);
    SpelledDate(sp.date, k + z);
    assert Spell(sp) == d + (k + z);
    SpelledClockOrNone(d, sp.clock, sp.zone);
    assert Spell(sp)[10 + |k|..] == z;
    SpelledZone(Spell(sp), 10 + |k|, sp.zone);
  }

  lemma ReadPad(b: string, pos: nat, len: nat)
    requires Digits(b, pos, len).Some? && len > 0
    ensures pos + len <= |b| && b[pos..pos + len] == Pad(Digits(b, pos, len).value, len)
  {
    PadOfValue(b[pos..pos + len]);
  }

  lemma ReadDate(b: string) returns (d: Date)
    requires ParseDate(b).Some?
    ensures ParseDate(b) == Some(d) && 0 <= d.year <= 9999 && Calendar.Valid(d)
    ensures b[..10] == SpellDate(d)
  {
    d := ParseDate(b).value;
    ReadPad(b, 0, 4);
    ReadPad(b, 5, 2);
    ReadPad(b, 8, 2);
    Pad4(d.year);
    assert b[..10] == b[0..4] + [b[4]] + b[5..7] + [b[7]] + b[8..10];
  }

  lemma ClockPieces(b: string, end: nat)
    requires 19 <= end <= |b|
    ensures b[10..end] == [b[10]] + b[11..13] + [b[13]] + b[14..16] + [b[16]] + b[17..19] + b[19..end]
  {
    assert b[10..19] == [b[10]] + b[11..13] + [b[13]] + b[14..16] + [b[16]] + b[17..19];
  }

  /** What an accepted time of day consists of. */
  lemma ClockFacts(b: string)
    requires |b| > 10 && b[10] in "Tt " && ParseClock(b).Some?
    ensures |b| >= 19 && b[13] == ':' && b[16] == ':'
    ensures Digits(b, 11, 2).Some? && Digits(b, 14, 2).Some? && Digits(b, 17, 2).Some?
    ensures var h, m, s := Digits(b, 11, 2).value, Digits(b, 14, 2).value, Digits(b, 17, 2).value;
            h <= 23 && m <= 59 && s <= 59 && ParseClock(b).value.1 == h * 3_600 + m * 60 + s
    ensures ParseClock(b).value.0 == if |b| > 19 && b[19] == '.' then SkipDigits(b, 20) else 19
  {
    hide Digits, SkipDigits;
  }

  lemma ReadClock(b: string) returns (k: Option<Clock>)
    requires |b| >= 10 && ParseClock(b).Some?
    ensures var (pos, second) := ParseClock(b).value;
            && 10 <= pos <= |b| && b[10..pos] == SpellClock(k)
            && second == SecondOfDay(k)
    ensures WellSpelledClock(k)
  {
    if |b| > 10 && b[10] in "Tt " {
      ClockFacts(b);
      hide ParseClock, Digits, Pad, ValueOf, IsDigit;
      ReadPad(b, 11, 2);
      ReadPad(b, 14, 2);
      ReadPad(b, 17, 2);
      var end := ParseClock(b).value.0;
      var f := if |b| > 19 && b[19] == '.' then Some(b[20..end]) else None;
      k := Some(Clock(b[10], Digits(b, 11, 2).value, Digits(b, 14, 2).value, Digits(b, 17, 2).value, f));
      ClockPieces(b, end);
      assert b[19..end] == match f case None => "" case Some(t) => "." + t;
    } else {
      k := None;
    }
  }

  lemma ReadOffset(b: string, pos: nat, colon: bool)
    requires pos < |b| && b[pos] in "+-"
    requires var next := if colon then pos + 4 else pos + 3;
             next + 2 == |b| && Digits(b, pos + 1, 2).Some? && Digits(b, next, 2).Some?
             && (colon ==> b[pos + 3] == ':')
    ensures var next := if colon then pos + 4 else pos + 3;
            b[pos..] == SpellZone(Offset(b[pos], Digits(b, pos + 1, 2).value, colon, Digits(b, next, 2).value))
  {
    hide ValueOf, Pad, Digits, IsDigit;
    var next := if colon then pos + 4 else pos + 3;
    ReadPad(b, pos + 1, 2);
    ReadPad(b, next, 2);
    var hours, mark, minutes := b[pos + 1..pos + 3], b[pos + 3..next], b[next..next + 2];
    assert mark == if colon then ":" else "";
    assert b[next..] == minutes;
    SplitAt(b, pos + 3, next);
    SplitAt(b, pos + 1, pos + 3);
    assert b[pos..] == [b[pos]] + b[pos + 1..];
    Assoc([b[pos]], hours, mark + minutes);
    Assoc([b[pos]] + hours, mark, minutes);
  }

  lemma ParsedOffset(b: string, pos: nat) returns (z: Zone)
    requires pos < |b| && b[pos] !in "Zz" && ParseZone(b, pos).Some?
    ensures z.Offset? && WellSpelledZone(z) && b[pos..] == SpellZone(z)
    ensures ParseZone(b, pos).value == ZoneOffset(z)
  {
    hide Digits, SpellZone;
    var colon := pos + 3 < |b| && b[pos + 3] == ':';
    var next := if colon then pos + 4 else pos + 3;
    z := Offset(b[pos], Digits(b, pos + 1, 2).value, colon, Digits(b, next, 2).value);
    ReadOffset(b, pos, colon);
  }

  lemma ReadZone(b: string, pos: nat) returns (z: Zone)
    requires pos <= |b| && ParseZone(b, pos).Some?
    ensures b[pos..] == SpellZone(z) && ParseZone(b, pos) == Some(ZoneOffset(z))
    ensures WellSpelledZone(z)
  {
    if pos == |b| {
      z := Unzoned;
    } else if b[pos] in "Zz" {
      z := Zulu(b[pos]);
    } else {
      z := ParsedOffset(b, pos);
    }
  }

  /** Whatever parses is such a spelling: nothing else is accepted. */
  lemma ParsedIsSpelled(b: string) returns (sp: Spelling)
    requires Parse(b).Some?
    ensures WellSpelled(sp) && Spell(sp) == b && Parse(b) == Some(Instant(sp))
  {
    hide DaysFromCivil, ParseDate, ParseClock, ParseZone, SpellDate, SpellClock, SpellZone, SecondOfDay, ZoneOffset;
    var date := ReadDate(b);
    var clock := ReadClock(b);
    var pos := ParseClock(b).value.0;
    var zone := ReadZone(b, pos);
    sp := Spelling(date, clock, zone);
    assert b == b[..10] + b[10..pos] + b[pos..];
  }

  /** The parser accepts exactly the language of Spelling. */
  lemma AcceptsExactly(b: string, t: int)
    ensures Parse(b) == Some(t) <==> exists sp :: WellSpelled(sp) && Spell(sp) == b && Instant(sp) == t
  {
    if Parse(b) == Some(t) {
      var sp := ParsedIsSpelled(b);
    }
    forall sp | WellSpelled(sp) && Spell(sp) == b && Instant(sp) == t ensures Parse(b) == Some(t) {
      SpellingParses(sp);
    }
  }

  /** Two accepted spellings parse alike exactly when their day, second of the
      day and offset add up to the same instant: the separator, the zone letter
      or its absence, the offset's colon and the fraction make no difference,
      and a shifted clock is made up for by its offset. */
  lemma SpellingVariantsAgree(a: Spelling, b: Spelling)
    requires WellSpelled(a) && WellSpelled(b)
    ensures Parse(Spell(a)) != None
    ensures Parse(Spell(a)) == Parse(Spell(b))
       <==> (DaysFromCivil(a.date) - DaysFromCivil(b.date)) * 86_400 + SecondOfDay(a.clock) - SecondOfDay(b.clock)
            == ZoneOffset(a.zone) - ZoneOffset(b.zone)
  {
    hide DaysFromCivil, Parse, Spell, WellSpelled, SecondOfDay, ZoneOffset;
    SpellingParses(a);
    SpellingParses(b);
  }

  const FIRST_SECOND := -62_167_219_200
  const LAST_SECOND := 253_402_300_799

  lemma FourDigitYears(d: Date)
    requires Calendar.Valid(d)
    ensures 0 <= d.year <= 9999 <==> -719_528 <= DaysFromCivil(d) <= 2_932_896
  {
    var first, last := Date(0, 1, 1), Date(9999, 12, 31);
    assert DaysFromCivil(first) == -719_528 && DaysFromCivil(last) == 2_932_896;
    if Before(d, first) { StrictlyIncreasing(d, first); }
    if Before(first, d) { StrictlyIncreasing(first, d); }
    if Before(d, last) { StrictlyIncreasing(d, last); }
    if Before(last, d) { StrictlyIncreasing(last, d); }
  }

  /** No accepted offset moves an instant more than 86340 seconds out of the
      four-digit years. */
  lemma ParsedIsBounded(b: string)
    requires Parse(b).Some?
    ensures FIRST_SECOND - 86_340 <= Parse(b).value <= LAST_SECOND + 86_340
  {
    var sp := ParsedIsSpelled(b);
    FourDigitYears(sp.date);
  }

  // ---- Printing -------------------------------------------------------------

  /** `{:04}`: the sign counts toward the width. */
  function PadSigned(n: int, w: nat): string
    requires w >= 1
  {
    if n < 0 then "-" + Pad(-n, w - 1) else Pad(n, w)
  }

  function Print(secs: int): string {
    var days, rem := secs / 86_400, secs % 86_400;
    var d := CivilFromDays(days);
    CivilIsInverse(days);
    PadSigned(d.year, 4) + "-" + Pad(d.month, 2) + "-" + Pad(d.day, 2)
    + "T" + Pad(rem / 3_600, 2) + ":" + Pad(rem % 3_600 / 60, 2) + ":" + Pad(rem % 60, 2) + "Z"
  }

  predicate Printable(secs: int) {
    FIRST_SECOND <= secs <= LAST_SECOND
  }

  ghost function PrintedSpelling(secs: int): Spelling {
    var rem := secs % 86_400;
    Spelling(CivilFromDays(secs / 86_400), Some(Clock('T', rem / 3_600, rem % 3_600 / 60, rem % 60, None)), Zulu('Z'))
  }

  lemma ClockOfSecond(rem: nat)
    requires rem < 86_400
    ensures var c := Clock('T', rem / 3_600, rem % 3_600 / 60, rem % 60, None);
            && WellSpelledClock(Some(c)) && SecondOfDay(Some(c)) == rem
            && SpellClock(Some(c)) == "T" + ClockText(rem) && |ClockText(rem)| == 8
  {
    hide Pad;
    Pad2(rem / 3_600);
    Pad2(rem % 3_600 / 60);
    Pad2(rem % 60);
  }

  lemma PrintedFields(secs: int)
    ensures var d := CivilFromDays(secs / 86_400);
            && Calendar.Valid(d)
            && Print(secs) == PadSigned(d.year, 4) + "-" + Pad(d.month, 2) + "-" + Pad(d.day, 2)
                              + ("T" + ClockText(secs % 86_400) + "Z")
  {
    hide CivilFromDays, Pad;
    CivilIsInverse(secs / 86_400);
  }

  lemma PrintedText(secs: int)
    requires Printable(secs)
    ensures var d := CivilFromDays(secs / 86_400);
            && Calendar.Valid(d) && 0 <= d.year <= 9999 && DaysFromCivil(d) == secs / 86_400
            && Print(secs) == SpellDate(d) + ("T" + (ClockText(secs % 86_400) + "Z"))
  {
    hide CivilFromDays, DaysFromCivil, Pad, ClockText, Print;
    var d := CivilFromDays(secs / 86_400);
    CivilIsInverse(secs / 86_400);
    FourDigitYears(d);
    PrintedFields(secs);
    assert "T" + ClockText(secs % 86_400) + "Z" == "T" + (ClockText(secs % 86_400) + "Z");
  }

  lemma PrintSpells(secs: int)
    requires Printable(secs)
    ensures WellSpelled(PrintedSpelling(secs)) && Instant(PrintedSpelling(secs)) == secs
    ensures Print(secs) == Spell(PrintedSpelling(secs)) && |Print(secs)| == 20
  {
    hide CivilFromDays, DaysFromCivil, Pad, ClockText, Print, SpellDate, SpellClock, SecondOfDay;
    var sp := PrintedSpelling(secs);
    var clock := ClockText(secs % 86_400);
    PrintedText(secs);
    ClockOfSecond(secs % 86_400);
    SpelledDate(sp.date, "");
    assert Print(secs) == SpellDate(sp.date) + ("T" + clock) + "Z";
  }

  /** Every instant of the four-digit years is printed as its date and its clock, and
      every date and clock is printed so. */
  lemma PrintExactly(d: Date, h: nat, m: nat, s: nat)
    requires Calendar.Valid(d) && 0 <= d.year <= 9999 && h < 24 && m < 60 && s < 60
    ensures Print(DaysFromCivil(d) * 86_400 + (h * 3_600 + m * 60 + s))
         == Pad(d.year, 4) + "-" + Pad(d.month, 2) + "-" + Pad(d.day, 2)
            + "T" + Pad(h, 2) + ":" + Pad(m, 2) + ":" + Pad(s, 2) + "Z"
  {
    hide DaysFromCivil, CivilFromDays, Pad;
    Calendar.DateSurvivesTheRoundTrip(d);
    DayAndSecond(DaysFromCivil(d), h * 3_600 + m * 60 + s);
    HoursMinutesSeconds(h, m, s);
  }

  lemma DayAndSecond(days: int, rem: nat)
    requires rem < 86_400
    ensures (days * 86_400 + rem) / 86_400 == days && (days * 86_400 + rem) % 86_400 == rem
  {}

  lemma HoursMinutesSeconds(h: nat, m: nat, s: nat)
    requires m < 60 && s < 60
    ensures var rem := h * 3_600 + m * 60 + s; rem / 3_600 == h && rem % 3_600 / 60 == m && rem % 60 == s
  {}

  /** Printing then parsing gives the instant back exactly for the four-digit
      years; outside them the printed text does not parse at all. */
  lemma PrintParse(secs: int)
    ensures Printable(secs) ==> Parse(Print(secs)) == Some(secs)
    ensures !Printable(secs) ==> Parse(Print(secs)) == None
  {
    hide Parse, Print, Spell, PrintedSpelling;
    if Printable(secs) {
      PrintSpells(secs);
      SpellingParses(PrintedSpelling(secs));
    } else {
      UnprintableFails(secs);
    }
  }

  /** A year below 0 starts with a sign, one past 9999 has no dash in place. */
  lemma UnprintableFails(secs: int)
    requires !Printable(secs)
    ensures Parse(Print(secs)) == None
  {
    hide CivilFromDays, DaysFromCivil, Pad, Print, ClockText, ParseClock, ParseZone;
    var d := CivilFromDays(secs / 86_400);
    CivilIsInverse(secs / 86_400);
    FourDigitYears(d);
    PrintedFields(secs);
    var s, y := Print(secs), PadSigned(d.year, 4);
    if d.year < 0 {
      assert s[0] == y[0] == '-';
      NotDigits(s, 0, 4, 0);
    } else {
      Pad4(d.year);
      assert |y| > 4 && s[4] == y[4];
    }
  }

  lemma DateOrder(d: Date, e: Date, rest: string, more: string)
    requires Calendar.Valid(d) && Calendar.Valid(e) && 0 <= d.year <= 9999 && 0 <= e.year <= 9999
    requires Before(d, e)
    ensures LexLess(SpellDate(d) + rest, SpellDate(e) + more)
  {
    Widths();
    Pad4(d.year);
    Pad4(e.year);
    Pad2(d.month);
    Pad2(e.month);
    if d.year < e.year { PadOrder(d.year, e.year, 4); }
    else if d.month < e.month { PadOrder(d.month, e.month, 2); }
    else { PadOrder(d.day, e.day, 2); }
    LexFields(Pad(d.year, 4), Pad(d.month, 2), Pad(d.day, 2), Pad(e.year, 4), Pad(e.month, 2), Pad(e.day, 2), "-");
    Pad2(d.day);
    Pad2(e.day);
    LexByPrefix(SpellDate(d), SpellDate(e), rest, more);
  }

  lemma Widths()
    ensures Pow10(2) == 100 && Pow10(4) == 10_000
  {
    assert Pow10(4) == 10 * Pow10(3) && Pow10(3) == 10 * Pow10(2);
  }

  lemma ClockSplits(n: nat)
    requires n < 86_400
    ensures n == 3_600 * (n / 3_600) + 60 * (n % 3_600 / 60) + n % 60
    ensures n / 3_600 <= 23 && n % 3_600 / 60 <= 59
  {}

  /** Fixed-width "hh:mm:ss" orders as the second of the day. */
  lemma ClockOrder(a: nat, b: nat)
    requires a < b < 86_400
    ensures LexLess(ClockText(a), ClockText(b))
  {
    hide Pad, LexLess;
    Widths();
    var ah, am, asec := a / 3_600, a % 3_600 / 60, a % 60;
    var bh, bm, bsec := b / 3_600, b % 3_600 / 60, b % 60;
    ClockSplits(a);
    ClockSplits(b);
    Pad2(ah);
    Pad2(bh);
    Pad2(am);
    Pad2(bm);
    if ah < bh { PadOrder(ah, bh, 2); }
    else if am < bm { PadOrder(am, bm, 2); }
    else { PadOrder(asec, bsec, 2); }
    LexFields(Pad(ah, 2), Pad(am, 2), Pad(asec, 2), Pad(bh, 2), Pad(bm, 2), Pad(bsec, 2), ":");
  }

  ghost function ClockText(second: nat): string {
    Pad(second / 3_600, 2) + ":" + Pad(second % 3_600 / 60, 2) + ":" + Pad(second % 60, 2)
  }

  /** On the printable range the order of the texts is the order of the instants. */
  lemma PrintOrder(a: int, b: int)
    requires Printable(a) && Printable(b)
    ensures a < b <==> LexLess(Print(a), Print(b))
  {
    if a < b {
      PrintedEarlierIsLess(a, b);
    } else if b < a {
      PrintedEarlierIsLess(b, a);
      LexAsymmetric(Print(a), Print(b));
    } else {
      LexAsymmetric(Print(a), Print(a));
    }
  }

  lemma PrintedEarlierIsLess(a: int, b: int)
    requires Printable(a) && Printable(b) && a < b
    ensures LexLess(Print(a), Print(b))
  {
    hide CivilFromDays, DaysFromCivil, Print, SpellDate, LexLess, ClockText;
    var d, e := CivilFromDays(a / 86_400), CivilFromDays(b / 86_400);
    var at, bt := ClockText(a % 86_400), ClockText(b % 86_400);
    PrintedText(a);
    PrintedText(b);
    if a / 86_400 < b / 86_400 {
      LaterNumberLaterDate(d, e);
      DateOrder(d, e, "T" + (at + "Z"), "T" + (bt + "Z"));
    } else {
      ClockOrder(a % 86_400, b % 86_400);
      ClockOfSecond(a % 86_400);
      ClockOfSecond(b % 86_400);
      LexByPrefix(at, bt, "Z", "Z");
      LexAfterPrefix("T", at + "Z", bt + "Z");
      LexAfterPrefix(SpellDate(d), "T" + (at + "Z"), "T" + (bt + "Z"));
    }
  }
}
