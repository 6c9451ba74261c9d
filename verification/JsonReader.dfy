// A reader of JSON text without white space, after the grammar of RFC 8259, and that it reads back what
// was printed.
module JsonReader {
  import opened Wrappers
  import opened Unicode
  import opened Canonical
  import opened JsonText

  function Unit(c: char): CodeUnit {
    if c < '\U{80}' then c as CodeUnit else 0
  }

  // The text starts with this word.
  predicate Starts(t: Text, word: string) {
    |word| <= |t| && forall i :: 0 <= i < |word| ==> t[i] == Unit(word[i])
  }

  // ----- Strings, section 7 -----

  function HexValue(u: CodeUnit): Option<int> {
    if Unit('0') <= u <= Unit('9') then Some(u as int - 0x30)
    else if Unit('a') <= u <= Unit('f') then Some(u as int - 0x61 + 10)
    else if Unit('A') <= u <= Unit('F') then Some(u as int - 0x41 + 10)
    else None
  }

  function FourHex(t: Text): Option<CodeUnit>
    requires |t| >= 4
  {
    match (HexValue(t[0]), HexValue(t[1]), HexValue(t[2]), HexValue(t[3]))
    case (Some(a), Some(b), Some(c), Some(d)) =>
      var n := ((a * 16 + b) * 16 + c) * 16 + d;
      if 0 <= n < 0x1_0000 then Some(n as CodeUnit) else None
    case _ => None
  }

  function Escaped(letter: CodeUnit): Option<CodeUnit> {
    if letter == Unit('"') then Some(0x22)
    else if letter == Unit('\\') then Some(0x5C)
    else if letter == Unit('/') then Some(0x2F)
    else if letter == Unit('b') then Some(0x08)
    else if letter == Unit('f') then Some(0x0C)
    else if letter == Unit('n') then Some(0x0A)
    else if letter == Unit('r') then Some(0x0D)
    else if letter == Unit('t') then Some(0x09)
    else None
  }

  function Prepend(u: CodeUnit, rest: Option<(Text, Text)>): Option<(Text, Text)> {
    if rest.None? then None else Some(([u] + rest.value.0, rest.value.1))
  }

  // The units up to the closing quote, and what follows it.
  function ReadUnits(t: Text): (r: Option<(Text, Text)>)
    ensures r.Some? ==> |r.value.1| < |t|
    decreases |t|
  {
    if t == [] || t[0] < 0x20 then None
    else if t[0] == Unit('"') then Some(([], t[1..]))
    else if t[0] != Unit('\\') then Prepend(t[0], ReadUnits(t[1..]))
    else if |t| < 2 then None
    else if t[1] == Unit('u') then
      if |t| < 6 || FourHex(t[2..6]).None? then None else Prepend(FourHex(t[2..6]).value, ReadUnits(t[6..]))
    else if Escaped(t[1]).None? then None
    else Prepend(Escaped(t[1]).value, ReadUnits(t[2..]))
  }

  // ----- Values, sections 3 to 6 -----

  function ReadNumeral(t: Text): (r: (Text, Text))
    ensures t == r.0 + r.1 && forall u :: u in r.0 ==> NumeralUnit(u)
  {
    if t == [] || !NumeralUnit(t[0]) then ([], t)
    else
      var (n, rest) := ReadNumeral(t[1..]);
      ([t[0]] + n, rest)
  }

  function ReadValue(t: Text): (r: Option<(Json, Text)>)
    ensures r.Some? ==> |r.value.1| < |t|
    decreases |t|, 0
  {
    if t == [] then None
    else if Starts(t, "null") then Some((Null, t[4..]))
    else if Starts(t, "true") then Some((Bool(true), t[4..]))
    else if Starts(t, "false") then Some((Bool(false), t[5..]))
    else if t[0] == Unit('"') then
      match ReadUnits(t[1..])
      case Some((s, rest)) => Some((String(s), rest))
      case None => None
    else if t[0] == Unit('[') then
      match ReadElements(t[1..], true)
      case Some((items, rest)) => Some((Array(items), rest))
      case None => None
    else if t[0] == Unit('{') then
      match ReadMembers(t[1..], true)
      case Some((entries, rest)) => Some((Object(entries), rest))
      case None => None
    else if NumeralUnit(t[0]) then
      var (n, rest) := ReadNumeral(t);
      if |n| > 0 then Some((Number(n), rest)) else None
    else None
  }

  // Past the comma between two elements or members.
  function Onward(t: Text, first: bool): Option<Text> {
    if first then Some(t) else if t != [] && t[0] == Unit(',') then Some(t[1..]) else None
  }

  function ReadElements(t: Text, first: bool): (r: Option<(seq<Json>, Text)>)
    ensures r.Some? ==> |r.value.1| < |t|
    decreases |t|, 1
  {
    if t != [] && t[0] == Unit(']') then Some(([], t[1..]))
    else
      match Onward(t, first)
      case None => None
      case Some(body) =>
        match ReadValue(body)
        case None => None
        case Some((v, rest)) =>
          match ReadElements(rest, false)
          case None => None
          case Some((items, end)) => Some(([v] + items, end))
  }

  function ReadMembers(t: Text, first: bool): (r: Option<(seq<Entry>, Text)>)
    ensures r.Some? ==> |r.value.1| < |t|
    decreases |t|, 1
  {
    if t != [] && t[0] == Unit('}') then Some(([], t[1..]))
    else
      match Onward(t, first)
      case None => None
      case Some(body) =>
        if body == [] || body[0] != Unit('"') then None
        else
          match ReadUnits(body[1..])
          case None => None
          case Some((key, colon)) =>
            if colon == [] || colon[0] != Unit(':') then None
            else
              match ReadValue(colon[1..])
              case None => None
              case Some((v, rest)) =>
                match ReadMembers(rest, false)
                case None => None
                case Some((entries, end)) => Some(([Entry(key, v)] + entries, end))
  }

  // ----- Reading back -----

  lemma HexReads(d: int)
    requires 0 <= d < 16
    ensures HexValue(HexDigit(d)) == Some(d)
  {
  }

  lemma EscapeReads(u: CodeUnit)
    ensures UnicodeEscape(u)[0] == Unit('\\') && UnicodeEscape(u)[1] == Unit('u') && FourHex(UnicodeEscape(u)[2..6]) == Some(u)
  {
    var n := u as int;
    HexReads(n / 4096);
    HexReads(n / 256 % 16);
    HexReads(n / 16 % 16);
    HexReads(n % 16);
    FourDigits(n);
  }

  lemma SpellingReads(u: CodeUnit, lone: bool, t: Text)
    ensures ReadUnits(Spelling(u, lone) + t) == Prepend(u, ReadUnits(t))
  {
    var a := Spelling(u, lone);
    assert (a + t)[|a|..] == t;
    if |a| == 6 {
      EscapeReads(u);
      assert (a + t)[2..6] == a[2..6];
    }
  }

  lemma {:induction false} UnitsRead(s: Text, i: nat, x: Text)
    requires i <= |s|
    ensures ReadUnits(Units(s, i) + x) == Some((s[i..], x))
    decreases |s| - i
  {
    if i == |s| {
      assert ([QUOTE] + x)[1..] == x && s[i..] == [];
    } else {
      UnitsRead(s, i + 1, x);
      Assoc(Spelling(s[i], Lone(s, i)), Units(s, i + 1), x);
      SpellingReads(s[i], Lone(s, i), Units(s, i + 1) + x);
      assert [s[i]] + s[i + 1..] == s[i..];
    }
  }

  lemma QuotedReads(s: Text, x: Text)
    ensures Quoted(s) + x != [] && (Quoted(s) + x)[0] == Unit('"') && ReadUnits((Quoted(s) + x)[1..]) == Some((s, x))
  {
    UnitsRead(s, 0, x);
    assert (Quoted(s) + x)[1..] == Units(s, 0) + x && s[0..] == s;
  }

  lemma {:induction false} NumeralReads(n: Text, x: Text)
    requires (forall u :: u in n ==> NumeralUnit(u)) && Ends(x)
    ensures ReadNumeral(n + x) == (n, x)
  {
    if n == [] {
      assert n + x == x;
    } else {
      NumeralReads(n[1..], x);
      assert (n + x)[1..] == n[1..] + x && n == [n[0]] + n[1..];
    }
  }

  lemma OnwardReads(first: bool, body: Text)
    ensures Onward(Comma(first) + body, first) == Some(body)
  {
    if first {
      assert Comma(first) + body == body;
    } else {
      assert (Comma(first) + body)[1..] == body;
    }
  }

  lemma NullReads(x: Text)
    ensures ReadValue(NULL + x) == Some((Null, x))
  {
    assert (NULL + x)[4..] == x;
  }

  lemma TrueReads(x: Text)
    ensures ReadValue(TRUE + x) == Some((Bool(true), x))
  {
    assert (TRUE + x)[4..] == x;
  }

  lemma FalseReads(x: Text)
    ensures ReadValue(FALSE + x) == Some((Bool(false), x))
  {
    assert (FALSE + x)[5..] == x;
  }

  lemma StringReads(s: Text, x: Text)
    ensures ReadValue(Quoted(s) + x) == Some((String(s), x))
  {
    QuotedReads(s, x);
  }

  lemma NumberReads(n: Numeral, x: Text)
    requires Ends(x)
    ensures ReadValue(n + x) == Some((Number(n), x))
  {
    NumeralReads(n, x);
    assert (n + x)[0] == n[0] && n[0] in n;
    NumberByFirst(n + x);
  }

  lemma NumberByFirst(t: Text)
    requires t != [] && NumeralUnit(t[0])
    ensures ReadValue(t) == Some((Number(ReadNumeral(t).0), ReadNumeral(t).1))
  {
  }

  lemma ArrayReads(items: seq<Json>, x: Text)
    requires ReadElements(Elements(items, true) + x, true) == Some((items, x))
    ensures ReadValue(Stringify(Array(items)) + x) == Some((Array(items), x))
  {
    BracketReads(Elements(items, true) + x, items, x);
    Assoc([OPEN_ARRAY], Elements(items, true), x);
  }

  lemma BracketReads(t: Text, items: seq<Json>, x: Text)
    requires ReadElements(t, true) == Some((items, x))
    ensures ReadValue([OPEN_ARRAY] + t) == Some((Array(items), x))
  {
    assert ([OPEN_ARRAY] + t)[1..] == t;
    ArrayByFirst([OPEN_ARRAY] + t);
  }

  lemma ArrayByFirst(t: Text)
    requires t != [] && t[0] == Unit('[') && ReadElements(t[1..], true).Some?
    ensures ReadValue(t) == Some((Array(ReadElements(t[1..], true).value.0), ReadElements(t[1..], true).value.1))
  {
  }

  lemma ObjectReads(entries: seq<Entry>, x: Text)
    requires ReadMembers(Members(entries, true) + x, true) == Some((entries, x))
    ensures ReadValue(Stringify(Object(entries)) + x) == Some((Object(entries), x))
  {
    BraceReads(Members(entries, true) + x, entries, x);
    Assoc([OPEN_OBJECT], Members(entries, true), x);
  }

  lemma BraceReads(t: Text, entries: seq<Entry>, x: Text)
    requires ReadMembers(t, true) == Some((entries, x))
    ensures ReadValue([OPEN_OBJECT] + t) == Some((Object(entries), x))
  {
    assert ([OPEN_OBJECT] + t)[1..] == t;
    ObjectByFirst([OPEN_OBJECT] + t);
  }

  lemma ObjectByFirst(t: Text)
    requires t != [] && t[0] == Unit('{') && ReadMembers(t[1..], true).Some?
    ensures ReadValue(t) == Some((Object(ReadMembers(t[1..], true).value.0), ReadMembers(t[1..], true).value.1))
  {
  }

  // Reading what was printed gives the value back, and what follows it.
  lemma {:induction false} ReadsBack(v: Json, x: Text)
    requires Ends(x)
    ensures ReadValue(Stringify(v) + x) == Some((v, x))
    decreases v
  {
    match v
    case Null => NullReads(x);
    case Bool(b) => if b { TrueReads(x); } else { FalseReads(x); }
    case Number(n) => NumberReads(n, x);
    case String(s) => StringReads(s, x);
    case Array(items) =>
      ElementsReadBack(items, true, x);
      ArrayReads(items, x);
    case Object(entries) =>
      MembersReadBack(entries, true, x);
      ObjectReads(entries, x);
  }

  // One element, and then the others.
  lemma OneElement(t: Text, first: bool, body: Text, v: Json, rest: Text, items: seq<Json>, x: Text)
    requires t != [] && t[0] != Unit(']') && Onward(t, first) == Some(body)
    requires ReadValue(body) == Some((v, rest)) && ReadElements(rest, false) == Some((items, x))
    ensures ReadElements(t, first) == Some(([v] + items, x))
  {
  }

  lemma {:induction false} ElementsReadBack(items: seq<Json>, first: bool, x: Text)
    ensures ReadElements(Elements(items, first) + x, first) == Some((items, x))
    decreases items
  {
    var t := Elements(items, first) + x;
    if items == [] {
      assert t[1..] == x;
    } else {
      var rest := Elements(items[1..], false) + x;
      ElementsAhead(items, first, x);
      ElementsStart(items, first, x);
      ElementsEnd(items[1..], x);
      ReadsBack(items[0], rest);
      ElementsReadBack(items[1..], false, x);
      OnwardReads(first, Stringify(items[0]) + rest);
      OneElement(t, first, Stringify(items[0]) + rest, items[0], rest, items[1..], x);
      assert items == [items[0]] + items[1..];
    }
  }

  lemma OneMember(t: Text, first: bool, body: Text, key: Text, v: Json, after: Text, rest: Text, entries: seq<Entry>, x: Text)
    requires t != [] && t[0] != Unit('}') && Onward(t, first) == Some(body)
    requires body != [] && body[0] == Unit('"') && ReadUnits(body[1..]) == Some((key, [COLON] + after))
    requires ReadValue(after) == Some((v, rest)) && ReadMembers(rest, false) == Some((entries, x))
    ensures ReadMembers(t, first) == Some(([Entry(key, v)] + entries, x))
  {
    assert ([COLON] + after)[1..] == after;
  }

  lemma {:induction false} MembersReadBack(entries: seq<Entry>, first: bool, x: Text)
    ensures ReadMembers(Members(entries, first) + x, first) == Some((entries, x))
    decreases entries
  {
    var t := Members(entries, first) + x;
    if entries == [] {
      assert t[1..] == x;
    } else {
      var e, rest := entries[0], Members(entries[1..], false) + x;
      var after := Stringify(e.value) + rest;
      MembersAhead(entries, first, x);
      MembersStart(entries, first, x);
      MembersEnd(entries[1..], x);
      QuotedReads(e.key, [COLON] + after);
      ReadsBack(e.value, rest);
      MembersReadBack(entries[1..], false, x);
      OnwardReads(first, Quoted(e.key) + ([COLON] + after));
      OneMember(t, first, Quoted(e.key) + ([COLON] + after), e.key, e.value, after, rest, entries[1..], x);
      assert entries == [e] + entries[1..];
    }
  }

  // The whole text of a value is read as that value and nothing more.
  lemma RoundTrip(v: Json)
    ensures ReadValue(Stringify(v)) == Some((v, []))
  {
    ReadsBack(v, []);
    assert Stringify(v) + [] == Stringify(v);
  }

  // So a printed value can be told off the front of a text, and two values are printed alike only when they
  // are one value.
  lemma StringifyTells(v: Json, w: Json, x: Text, y: Text)
    requires Stringify(v) + x == Stringify(w) + y && Ends(x) && Ends(y)
    ensures v == w && x == y
  {
    ReadsBack(v, x);
    ReadsBack(w, y);
  }

  lemma TextTellsValue(v: Json, w: Json)
    ensures Stringify(v) == Stringify(w) <==> v == w
  {
    RoundTrip(v);
    RoundTrip(w);
  }
}
