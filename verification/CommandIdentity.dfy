// What makes two submissions of one command ID the same command: the hash of the JSON text of the
// canonical form of type and payload.
module CommandIdentity {
  import opened Wrappers
  import opened Unicode
  import opened Canonical
  import opened CanonicalProofs
  import opened JsonText
  import JsonReader
  import C = Commands
  import CommandProofs

  const PAYLOAD: Text := [0x70, 0x61, 0x79, 0x6C, 0x6F, 0x61, 0x64]
  const TYPE: Text := [0x74, 0x79, 0x70, 0x65]

  datatype SemanticCommand = SemanticCommand(kind: Text, payload: Json)

  function AsJson(c: SemanticCommand): Json {
    Object([Entry(PAYLOAD, c.payload), Entry(TYPE, String(c.kind))])
  }

  // `sha` is the SHA-256 of the UTF-8 form of a text.
  function SemanticHash(p: Platform, sha: Text -> string, c: SemanticCommand): Result<string, Error> {
    match Canonicalize(p, AsJson(c))
    case Err(error) => Err(error)
    case Ok(canonical) => Ok(sha(Stringify(canonical)))
  }

  // Texts that UTF-8 keeps apart have different hashes.
  ghost predicate Collisionless(sha: Text -> string) {
    forall a, b :: WellFormed(a) && WellFormed(b) && sha(a) == sha(b) ==> a == b
  }

  lemma HashTellsForm(sha: Text -> string, v: Json, w: Json)
    requires Collisionless(sha)
    ensures sha(Stringify(v)) == sha(Stringify(w)) <==> v == w
  {
    StringifyWellFormed(v);
    StringifyWellFormed(w);
    JsonReader.TextTellsValue(v, w);
  }

  function Letter(u: CodeUnit): char {
    if u < 0xD800 then u as char else (u as int + 0x800) as char
  }

  function Letters(t: Text): string {
    seq(|t|, i requires 0 <= i < |t| => Letter(t[i]))
  }

  // There are enough strings to tell all texts apart.
  lemma LettersAreCollisionless()
    ensures Collisionless(Letters)
  {
    forall a, b | Letters(a) == Letters(b) ensures a == b {
      assert |a| == |Letters(a)| == |b|;
      forall i | 0 <= i < |a| ensures a[i] == b[i] {
        assert Letters(a)[i] == Letters(b)[i];
      }
    }
  }

  // A command means its payload and its type, unless the payload means nothing.
  lemma MeaningOfCommand(p: Platform, c: SemanticCommand)
    ensures MeaningOf(p, AsJson(c))
         == if p.nfc(PAYLOAD) == p.nfc(TYPE) || MeaningOf(p, c.payload).None? then None
            else Some(MObject(map[p.nfc(PAYLOAD) := MeaningOf(p, c.payload).value, p.nfc(TYPE) := MString(p.nfc(c.kind))]))
  {
    var payload, kind := Entry(PAYLOAD, c.payload), Entry(TYPE, String(c.kind));
    OneMoreField(p, [], payload);
    OneMoreField(p, [payload], kind);
    assert [] + [payload] == [payload] && [payload] + [kind] == [payload, kind];
    assert AsJson(c) == Object([payload, kind]);
    assert MeaningOf(p, String(c.kind)) == Some(MString(p.nfc(c.kind)));
  }

  lemma OneMoreField(p: Platform, es: seq<Entry>, e: Entry)
    ensures Fields(p, es + [e])
         == match (Fields(p, es), MeaningOf(p, e.value))
            case (Some(before), Some(last)) => if p.nfc(e.key) in before then None else Some(before[p.nfc(e.key) := last])
            case _ => None
  {
    assert (es + [e])[..|es|] == es;
  }

  lemma CommandsMeanTheSame(p: Platform, a: SemanticCommand, b: SemanticCommand)
    requires MeaningOf(p, AsJson(a)).Some?
    ensures MeaningOf(p, a.payload).Some?
    ensures MeaningOf(p, AsJson(a)) == MeaningOf(p, AsJson(b))
       <==> p.nfc(a.kind) == p.nfc(b.kind) && MeaningOf(p, a.payload) == MeaningOf(p, b.payload)
  {
    MeaningOfCommand(p, a);
    MeaningOfCommand(p, b);
    if MeaningOf(p, AsJson(a)) == MeaningOf(p, AsJson(b)) {
      var f, g := MeaningOf(p, AsJson(a)).value.fields, MeaningOf(p, AsJson(b)).value.fields;
      assert f[p.nfc(TYPE)] == g[p.nfc(TYPE)] && f[p.nfc(PAYLOAD)] == g[p.nfc(PAYLOAD)];
    }
  }

  // Two commands have one hash if and only if they are of one type and their payloads mean the same; that
  // is, if the one payload is the other rewritten, at any depth.
  lemma HashTellsMeaning(p: Platform, sha: Text -> string, a: SemanticCommand, b: SemanticCommand)
    requires Sound(p) && Collisionless(sha) && SemanticHash(p, sha, a).Ok?
    ensures SemanticHash(p, sha, a) == SemanticHash(p, sha, b)
       <==> p.nfc(a.kind) == p.nfc(b.kind) && MeaningOf(p, a.payload) == MeaningOf(p, b.payload)
    ensures MeaningOf(p, a.payload) == MeaningOf(p, b.payload) <==> Rewritten(p, a.payload, b.payload)
  {
    FormTellsMeaning(p, AsJson(a), AsJson(b));
    CanonicalKeepsMeaning(p, AsJson(b));
    CanonicalKeepsMeaning(p, AsJson(a));
    CommandsMeanTheSame(p, a, b);
    if SemanticHash(p, sha, b).Ok? {
      HashTellsForm(sha, Canonicalize(p, AsJson(a)).value, Canonicalize(p, AsJson(b)).value);
    }
    CanonicalKeepsMeaning(p, a.payload);
    FormTellsMeaning(p, a.payload, b.payload);
    FormTellsRewriting(p, a.payload, b.payload);
  }

  // A retry under a known command ID changes nothing at all, and is taken for the first command's
  // duplicate if and only if the two are of one type and their payloads mean the same.
  lemma RetryIsDuplicateExactly(p: Platform, sha: Text -> string, s: C.System, first: SemanticCommand,
                                again: SemanticCommand, sub: C.Submission, newId: string)
    requires Sound(p) && Collisionless(sha)
    requires sub.commandId in s.store.commands
    requires SemanticHash(p, sha, first) == Ok(s.store.commands[sub.commandId].hash)
    requires SemanticHash(p, sha, again) == Ok(sub.hash)
    ensures C.Apply(s, C.SubmitOp(sub, newId)) == s
    ensures C.Submitted(s, sub, newId).Ok?
       <==> p.nfc(first.kind) == p.nfc(again.kind) && MeaningOf(p, first.payload) == MeaningOf(p, again.payload)
    ensures C.Submitted(s, sub, newId).Ok? ==> C.Submitted(s, sub, newId).value.1.duplicate
    ensures C.Submitted(s, sub, newId).Err? ==> C.Submitted(s, sub, newId) == Err(C.IdempotencyConflict)
  {
    HashTellsMeaning(p, sha, first, again);
    CommandProofs.RetryChangesNothing(s, sub, newId);
  }

  // A retry whose payload is rewritten, at the top or in any object inside, has the hash of the first,
  // or is refused with it.
  lemma RewrittenPayloadHasTheHash(p: Platform, sha: Text -> string, kind: Text, v: Json, w: Json)
    requires Sound(p) && Rewritten(p, v, w)
    ensures SemanticHash(p, sha, SemanticCommand(kind, v)) == SemanticHash(p, sha, SemanticCommand(kind, w))
  {
    var es, gs := [Entry(PAYLOAD, v), Entry(TYPE, String(kind))], [Entry(PAYLOAD, w), Entry(TYPE, String(kind))];
    assert RewrittenEntries(p, es, gs);
    RewrittenHasTheSameForm(p, Object(es), Object(gs));
  }

  // So it is a duplicate of the first command and changes nothing.
  lemma RewrittenRetryIsDuplicate(p: Platform, sha: Text -> string, s: C.System, kind: Text, v: Json, w: Json,
        sub: C.Submission, newId: string)
    requires Sound(p) && Rewritten(p, v, w) && sub.commandId in s.store.commands
    requires SemanticHash(p, sha, SemanticCommand(kind, v)) == Ok(s.store.commands[sub.commandId].hash)
    requires SemanticHash(p, sha, SemanticCommand(kind, w)) == Ok(sub.hash)
    ensures C.Apply(s, C.SubmitOp(sub, newId)) == s
    ensures C.Submitted(s, sub, newId) == Ok((s, C.Receipt(s.store.commands[sub.commandId].state, true)))
  {
    RewrittenPayloadHasTheHash(p, sha, kind, v, w);
    CommandProofs.RetryChangesNothing(s, sub, newId);
  }

  // The plainest rewriting: the keys of the payload in another order.
  lemma ReorderedPayloadIsDuplicate(p: Platform, sha: Text -> string, kind: Text, es: seq<Entry>, fs: seq<Entry>)
    requires Sound(p) && multiset(es) == multiset(fs)
    ensures SemanticHash(p, sha, SemanticCommand(kind, Object(es)))
         == SemanticHash(p, sha, SemanticCommand(kind, Object(fs)))
  {
    OrderMeansNothing(p, es, fs);
    var a, b := SemanticCommand(kind, Object(es)), SemanticCommand(kind, Object(fs));
    SpellingMeansNothing(p, AsJson(a).entries, AsJson(b).entries);
    CanonicalKeepsMeaning(p, AsJson(a));
    CanonicalKeepsMeaning(p, AsJson(b));
    if MeaningOf(p, AsJson(a)).Some? {
      SameMeaningSameForm(p, AsJson(a), AsJson(b));
    }
  }
}
