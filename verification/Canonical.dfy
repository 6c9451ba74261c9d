// The canonical form of a command's JSON: strings and keys in NFC, keys in code-unit order, and a
// check of neighbours that refuses keys which NFC makes equal.
module Canonical {
  import opened Wrappers
  import opened Unicode

  // The units of a JSON number: digits, signs, a point and an exponent.
  predicate NumeralUnit(u: CodeUnit) {
    0x30 <= u <= 0x39 || u == 0x2B || u == 0x2D || u == 0x2E || u == 0x45 || u == 0x65
  }

  // A number stands for the text that JSON prints for it, which is one for its many spellings.
  type Numeral = t: Text | t != [] && forall u :: u in t ==> NumeralUnit(u) witness [0x30]

  datatype Json =
    | Null
    | Bool(b: bool)
    | Number(n: Numeral)
    | String(s: Text)
    | Array(items: seq<Json>)
    | Object(entries: seq<Entry>)

  // An own property; the entries of an object are in the order in which it enumerates them.
  datatype Entry = Entry(key: Text, value: Json)

  datatype Error = DuplicateKeys

  // What the platform supplies: Unicode normalisation, and the order in which an object made from
  // entries enumerates them (integer-like keys first, for one).
  datatype Platform = Platform(nfc: Text -> Text, own: seq<Entry> -> seq<Entry>)

  ghost predicate Sound(p: Platform) {
    && (forall s :: p.nfc(p.nfc(s)) == p.nfc(s))
    && (forall es :: multiset(p.own(es)) == multiset(es))
  }

  // ----- Sorting by key -----

  function Insert(e: Entry, sorted: seq<Entry>): seq<Entry> {
    if sorted == [] then [e]
    else
      var n := |sorted| - 1;
      if Less(e.key, sorted[n].key) then Insert(e, sorted[..n]) + [sorted[n]] else sorted + [e]
  }

  function Sort(es: seq<Entry>): seq<Entry> {
    if es == [] then [] else Insert(es[|es| - 1], Sort(es[..|es| - 1]))
  }

  predicate AdjacentClash(es: seq<Entry>) {
    exists i :: 0 < i < |es| && es[i - 1].key == es[i].key
  }

  // ----- canonicalize -----

  function Canonicalize(p: Platform, v: Json): Result<Json, Error>
    decreases v
  {
    match v
    case String(s) => Ok(String(p.nfc(s)))
    case Array(items) =>
      (match CanonicalItems(p, items)
       case Err(error) => Err(error)
       case Ok(canonical) => Ok(Array(canonical)))
    case Object(entries) =>
      (match CanonicalEntries(p, entries)
       case Err(error) => Err(error)
       case Ok(canonical) =>
         var sorted := Sort(canonical);
         if AdjacentClash(sorted) then Err(DuplicateKeys) else Ok(Object(p.own(sorted))))
    case _ => Ok(v)
  }

  function CanonicalItems(p: Platform, items: seq<Json>): Result<seq<Json>, Error>
    decreases items
  {
    if items == [] then Ok([])
    else
      var n := |items| - 1;
      match (CanonicalItems(p, items[..n]), Canonicalize(p, items[n]))
      case (Ok(before), Ok(last)) => Ok(before + [last])
      case _ => Err(DuplicateKeys)
  }

  function CanonicalEntries(p: Platform, entries: seq<Entry>): Result<seq<Entry>, Error>
    decreases entries
  {
    if entries == [] then Ok([])
    else
      var n := |entries| - 1;
      match (CanonicalEntries(p, entries[..n]), Canonicalize(p, entries[n].value))
      case (Ok(before), Ok(last)) => Ok(before + [Entry(p.nfc(entries[n].key), last)])
      case _ => Err(DuplicateKeys)
  }

  // ----- What a JSON value means: order and spelling forgotten -----

  datatype Meaning =
    | MNull
    | MBool(b: bool)
    | MNumber(n: Numeral)
    | MString(s: Text)
    | MArray(items: seq<Meaning>)
    | MObject(fields: map<Text, Meaning>)

  // None when some object in it has two keys with one normal form.
  function MeaningOf(p: Platform, v: Json): Option<Meaning>
    decreases v
  {
    match v
    case Null => Some(MNull)
    case Bool(b) => Some(MBool(b))
    case Number(n) => Some(MNumber(n))
    case String(s) => Some(MString(p.nfc(s)))
    case Array(items) =>
      var ms := Meanings(p, items);
      if ms.Some? then Some(MArray(ms.value)) else None
    case Object(entries) =>
      var fields := Fields(p, entries);
      if fields.Some? then Some(MObject(fields.value)) else None
  }

  function Meanings(p: Platform, items: seq<Json>): Option<seq<Meaning>>
    decreases items
  {
    if items == [] then Some([])
    else
      var n := |items| - 1;
      match (Meanings(p, items[..n]), MeaningOf(p, items[n]))
      case (Some(before), Some(last)) => Some(before + [last])
      case _ => None
  }

  function Fields(p: Platform, entries: seq<Entry>): Option<map<Text, Meaning>>
    decreases entries
  {
    if entries == [] then Some(map[])
    else
      var n := |entries| - 1;
      var key := p.nfc(entries[n].key);
      match (Fields(p, entries[..n]), MeaningOf(p, entries[n].value))
      case (Some(before), Some(last)) => if key in before then None else Some(before[key := last])
      case _ => None
  }
}
