// The text that JSON.stringify prints for a value (section 25.5.2 of ECMA-262), and that UTF-8 loses nothing of it.
module JsonText {
  import opened Unicode
  import opened Canonical

  const QUOTE: CodeUnit := 0x22
  const COMMA: CodeUnit := 0x2C
  const COLON: CodeUnit := 0x3A
  const OPEN_ARRAY: CodeUnit := 0x5B
  const BACKSLASH: CodeUnit := 0x5C
  const CLOSE_ARRAY: CodeUnit := 0x5D
  const SMALL_U: CodeUnit := 0x75
  const OPEN_OBJECT: CodeUnit := 0x7B
  const CLOSE_OBJECT: CodeUnit := 0x7D
  const NULL: Text := [0x6E, 0x75, 0x6C, 0x6C]
  const TRUE: Text := [0x74, 0x72, 0x75, 0x65]
  const FALSE: Text := [0x66, 0x61, 0x6C, 0x73, 0x65]

  // ----- Strings -----

  function HexDigit(d: int): (u: CodeUnit)
    requires 0 <= d < 16
    ensures !High(u) && !Low(u)
  {
    if d < 10 then (0x30 + d) as CodeUnit else (0x57 + d) as CodeUnit
  }

  function UnicodeEscape(u: CodeUnit): Text {
    var n := u as int;
    [BACKSLASH, SMALL_U, HexDigit(n / 4096), HexDigit(n / 256 % 16), HexDigit(n / 16 % 16), HexDigit(n % 16)]
  }

  // The letter of a two-character escape, or 0.
  function ShortEscape(u: CodeUnit): CodeUnit {
    if u == 0x08 then 0x62 else if u == 0x09 then 0x74 else if u == 0x0A then 0x6E else if u == 0x0C then 0x66
    else if u == 0x0D then 0x72 else if u == QUOTE then QUOTE else if u == BACKSLASH then BACKSLASH else 0
  }

  // A surrogate without its partner.
  predicate Lone(s: Text, i: nat)
    requires i < |s|
  {
    || (High(s[i]) && !(i + 1 < |s| && Low(s[i + 1])))
    || (Low(s[i]) && !(i > 0 && High(s[i - 1])))
  }

  function Spelling(u: CodeUnit, lone: bool): Text {
    if ShortEscape(u) != 0 then [BACKSLASH, ShortEscape(u)]
    else if u < 0x20 || lone then UnicodeEscape(u)
    else [u]
  }

  // The rest of a string from `i` on, and its closing quote.
  function Units(s: Text, i: nat): Text
    requires i <= |s|
    decreases |s| - i
  {
    if i == |s| then [QUOTE] else Spelling(s[i], Lone(s, i)) + Units(s, i + 1)
  }

  function Quoted(s: Text): Text {
    [QUOTE] + Units(s, 0)
  }

  // ----- Values -----

  function Stringify(v: Json): Text
    decreases v
  {
    match v
    case Null => NULL
    case Bool(b) => if b then TRUE else FALSE
    case Number(n) => n
    case String(s) => Quoted(s)
    case Array(items) => [OPEN_ARRAY] + Elements(items, true)
    case Object(entries) => [OPEN_OBJECT] + Members(entries, true)
  }

  function Comma(first: bool): Text {
    if first then [] else [COMMA]
  }

  function Elements(items: seq<Json>, first: bool): Text
    decreases items
  {
    if items == [] then [CLOSE_ARRAY] else Comma(first) + (Stringify(items[0]) + Elements(items[1..], false))
  }

  function Members(entries: seq<Entry>, first: bool): Text
    decreases entries
  {
    if entries == [] then [CLOSE_OBJECT]
    else
      var e := entries[0];
      Comma(first) + (Quoted(e.key) + ([COLON] + (Stringify(e.value) + Members(entries[1..], false))))
  }

  // ----- The text has no lone surrogates, so UTF-8 loses nothing of it -----

  ghost predicate WellFormed(t: Text) {
    forall i :: 0 <= i < |t| ==> !Lone(t, i)
  }

  lemma JoinWellFormed(a: Text, b: Text)
    requires WellFormed(a) && WellFormed(b)
    ensures WellFormed(a + b)
  {
    var t := a + b;
    forall i | 0 <= i < |t| ensures !Lone(t, i) {
      if i < |a| {
        assert !Lone(a, i);
      } else {
        assert !Lone(b, i - |a|);
      }
    }
  }

  predicate Plain(u: CodeUnit) {
    !High(u) && !Low(u)
  }

  lemma PlainWellFormed(t: Text)
    requires forall u :: u in t ==> Plain(u)
    ensures WellFormed(t)
  {
    forall i | 0 <= i < |t| ensures !Lone(t, i) {
      assert t[i] in t;
    }
  }

  // Only the second half of a pair can begin a rest that is not well-formed by itself.
  ghost predicate Rest(t: Text, paired: bool) {
    && t != []
    && (forall i :: 1 <= i < |t| ==> !Lone(t, i))
    && (if paired then Low(t[0]) else !Lone(t, 0))
  }

  predicate Paired(s: Text, i: nat)
    requires i <= |s|
  {
    0 < i < |s| && High(s[i - 1]) && Low(s[i])
  }

  lemma SpellingIsPlain(u: CodeUnit, lone: bool)
    ensures Plain(u) || lone ==> forall x :: x in Spelling(u, lone) ==> Plain(x)
    ensures !Plain(u) && !lone ==> Spelling(u, lone) == [u]
  {
  }

  lemma PlainBefore(a: Text, t: Text)
    requires (forall u :: u in a ==> Plain(u)) && a != [] && Rest(t, false)
    ensures Rest(a + t, false)
  {
    PlainWellFormed(a);
    assert WellFormed(t);
    JoinWellFormed(a, t);
  }

  lemma SurrogateBefore(u: CodeUnit, t: Text)
    requires (High(u) && Rest(t, true)) || (Low(u) && Rest(t, false))
    ensures Rest([u] + t, Low(u))
  {
    var all := [u] + t;
    forall i | 1 <= i < |all| ensures !Lone(all, i) {
      assert i > 1 ==> !Lone(t, i - 1);
      assert Low(u) ==> !Lone(t, i - 1);
    }
  }

  lemma {:induction false} UnitsAreRest(s: Text, i: nat)
    requires i <= |s|
    ensures Rest(Units(s, i), Paired(s, i))
    decreases |s| - i
  {
    if i < |s| {
      UnitsAreRest(s, i + 1);
      SpellingIsPlain(s[i], Lone(s, i));
      if Plain(s[i]) || Lone(s, i) {
        PlainBefore(Spelling(s[i], Lone(s, i)), Units(s, i + 1));
      } else {
        SurrogateBefore(s[i], Units(s, i + 1));
      }
    }
  }

  lemma QuotedWellFormed(s: Text)
    ensures WellFormed(Quoted(s))
  {
    UnitsAreRest(s, 0);
    assert WellFormed(Units(s, 0));
    PlainWellFormed([QUOTE]);
    JoinWellFormed([QUOTE], Units(s, 0));
  }

  lemma {:induction false} StringifyWellFormed(v: Json)
    ensures WellFormed(Stringify(v))
    decreases v
  {
    match v
    case Number(n) => PlainWellFormed(n);
    case String(s) => QuotedWellFormed(s);
    case Array(items) =>
      ElementsWellFormed(items, true);
      PlainWellFormed([OPEN_ARRAY]);
      JoinWellFormed([OPEN_ARRAY], Elements(items, true));
    case Object(entries) =>
      MembersWellFormed(entries, true);
      PlainWellFormed([OPEN_OBJECT]);
      JoinWellFormed([OPEN_OBJECT], Members(entries, true));
    case _ =>
  }

  lemma {:induction false} ElementsWellFormed(items: seq<Json>, first: bool)
    ensures WellFormed(Elements(items, first))
    decreases items
  {
    if items != [] {
      StringifyWellFormed(items[0]);
      ElementsWellFormed(items[1..], false);
      JoinWellFormed(Stringify(items[0]), Elements(items[1..], false));
      PlainWellFormed(Comma(first));
      JoinWellFormed(Comma(first), Stringify(items[0]) + Elements(items[1..], false));
    }
  }

  lemma {:induction false} MembersWellFormed(entries: seq<Entry>, first: bool)
    ensures WellFormed(Members(entries, first))
    decreases entries
  {
    if entries != [] {
      var e, more := entries[0], Members(entries[1..], false);
      StringifyWellFormed(e.value);
      MembersWellFormed(entries[1..], false);
      QuotedWellFormed(e.key);
      PlainWellFormed([COLON]);
      PlainWellFormed(Comma(first));
      JoinWellFormed(Stringify(e.value), more);
      JoinWellFormed([COLON], Stringify(e.value) + more);
      JoinWellFormed(Quoted(e.key), [COLON] + (Stringify(e.value) + more));
      JoinWellFormed(Comma(first), Quoted(e.key) + ([COLON] + (Stringify(e.value) + more)));
    }
  }

  // ----- Where texts begin and end -----

  lemma Assoc(a: Text, b: Text, c: Text)
    ensures (a + b) + c == a + (b + c)
  {
  }

  lemma FourDigits(n: int)
    requires 0 <= n < 0x1_0000
    ensures n == 4096 * (n / 4096) + 256 * (n / 256 % 16) + 16 * (n / 16 % 16) + n % 16
  {
    assert n / 256 == 16 * (n / 4096) + n / 256 % 16;
    assert n / 16 == 16 * (n / 256) + n / 16 % 16;
  }

  // What may follow a value: nothing that a number could go on with.
  predicate Ends(x: Text) {
    x == [] || !NumeralUnit(x[0])
  }

  // The first unit of a text tells which kind of value it is.
  function Kind(u: CodeUnit): nat {
    if u == NULL[0] then 0 else if u == TRUE[0] then 1 else if u == FALSE[0] then 2 else if NumeralUnit(u) then 3
    else if u == QUOTE then 4 else if u == OPEN_ARRAY then 5 else if u == OPEN_OBJECT then 6 else 7
  }

  function KindOf(v: Json): nat {
    match v
    case Null => 0
    case Bool(b) => if b then 1 else 2
    case Number(_) => 3
    case String(_) => 4
    case Array(_) => 5
    case Object(_) => 6
  }

  lemma FirstUnit(v: Json)
    ensures Stringify(v) != [] && Kind(Stringify(v)[0]) == KindOf(v)
  {
  }

  lemma ElementsEnd(items: seq<Json>, x: Text)
    ensures Ends(Elements(items, false) + x)
  {
    if items != [] {
      assert Elements(items, false)[0] == COMMA;
    }
  }

  lemma MembersEnd(entries: seq<Entry>, x: Text)
    ensures Ends(Members(entries, false) + x)
  {
    if entries != [] {
      assert Members(entries, false)[0] == COMMA;
    }
  }

  // A printed list goes on, or it ends, whatever follows.
  lemma ElementsStart(items: seq<Json>, first: bool, x: Text)
    ensures Elements(items, first) + x != [] && ((Elements(items, first) + x)[0] == CLOSE_ARRAY <==> items == [])
  {
    if items != [] {
      FirstUnit(items[0]);
      assert Elements(items, first)[0] == if first then Stringify(items[0])[0] else COMMA;
    }
  }

  lemma ElementsAhead(items: seq<Json>, first: bool, x: Text)
    requires items != []
    ensures Elements(items, first) + x == Comma(first) + (Stringify(items[0]) + (Elements(items[1..], false) + x))
  {
    var more := Elements(items[1..], false);
    Assoc(Comma(first), Stringify(items[0]) + more, x);
    Assoc(Stringify(items[0]), more, x);
  }

  lemma MembersStart(entries: seq<Entry>, first: bool, x: Text)
    ensures Members(entries, first) + x != [] && ((Members(entries, first) + x)[0] == CLOSE_OBJECT <==> entries == [])
  {
    if entries != [] {
      assert Members(entries, first)[0] == if first then QUOTE else COMMA;
    }
  }

  lemma MembersAhead(entries: seq<Entry>, first: bool, x: Text)
    requires entries != []
    ensures var e := entries[0];
            Members(entries, first) + x
            == Comma(first) + (Quoted(e.key) + ([COLON] + (Stringify(e.value) + (Members(entries[1..], false) + x))))
  {
    var e, more := entries[0], Members(entries[1..], false);
    Assoc(Comma(first), Quoted(e.key) + ([COLON] + (Stringify(e.value) + more)), x);
    Assoc(Quoted(e.key), [COLON] + (Stringify(e.value) + more), x);
    Assoc([COLON], Stringify(e.value) + more, x);
    Assoc(Stringify(e.value), more, x);
  }

}
