// The canonical form depends on what a value means and on nothing else, and tells apart everything
// that means something different.
module CanonicalProofs {
  import opened Wrappers
  import opened Unicode
  import opened Canonical

  // ----- The sort -----

  ghost predicate Ordered(es: seq<Entry>) {
    forall i, j :: 0 <= i < j < |es| ==> !Less(es[j].key, es[i].key)
  }

  ghost predicate StrictlyOrdered(es: seq<Entry>) {
    forall i, j :: 0 <= i < j < |es| ==> Less(es[i].key, es[j].key)
  }

  ghost predicate DistinctKeys(es: seq<Entry>) {
    forall i, j :: 0 <= i < j < |es| ==> es[i].key != es[j].key
  }

  lemma NotLessTransitive(a: Text, b: Text, c: Text)
    requires !Less(b, a) && !Less(c, b)
    ensures !Less(c, a)
  {
    Trichotomy(a, b);
    Trichotomy(b, c);
    if Less(c, a) {
      if Less(a, b) { Transitive(c, a, b); }
    }
  }

  lemma {:induction false} InsertPermutes(e: Entry, sorted: seq<Entry>)
    ensures multiset(Insert(e, sorted)) == multiset(sorted) + multiset{e}
  {
    if sorted != [] {
      var n := |sorted| - 1;
      InsertPermutes(e, sorted[..n]);
      assert sorted == sorted[..n] + [sorted[n]];
    }
  }

  lemma {:induction false} InsertOrders(e: Entry, sorted: seq<Entry>)
    requires Ordered(sorted)
    ensures Ordered(Insert(e, sorted))
  {
    if sorted != [] {
      var n := |sorted| - 1;
      var rest := Insert(e, sorted[..n]);
      if Less(e.key, sorted[n].key) {
        InsertOrders(e, sorted[..n]);
        InsertPermutes(e, sorted[..n]);
        forall i | 0 <= i < |rest| ensures !Less(sorted[n].key, rest[i].key) {
          assert rest[i] in multiset(rest);
          Trichotomy(e.key, sorted[n].key);
        }
      } else {
        forall i | 0 <= i < n ensures !Less(e.key, sorted[i].key) {
          NotLessTransitive(sorted[i].key, sorted[n].key, e.key);
        }
      }
    }
  }

  lemma {:induction false} SortSorts(es: seq<Entry>)
    ensures Ordered(Sort(es)) && multiset(Sort(es)) == multiset(es)
  {
    if es != [] {
      var n := |es| - 1;
      SortSorts(es[..n]);
      InsertOrders(es[n], Sort(es[..n]));
      InsertPermutes(es[n], Sort(es[..n]));
      assert es == es[..n] + [es[n]];
    }
  }

  // Once sorted, comparing neighbours finds every clash, however far apart the two keys were.
  lemma NeighboursTellAll(es: seq<Entry>)
    requires Ordered(es)
    ensures AdjacentClash(es) <==> !DistinctKeys(es)
    ensures !AdjacentClash(es) ==> StrictlyOrdered(es)
  {
    forall i, j | 0 <= i < j < |es| && !AdjacentClash(es) ensures Less(es[i].key, es[j].key) {
      StrictFrom(es, i, j);
    }
    forall i, j | 0 <= i < j < |es| && Less(es[i].key, es[j].key) ensures es[i].key != es[j].key {
      Trichotomy(es[i].key, es[j].key);
    }
  }

  lemma StrictFrom(es: seq<Entry>, i: nat, j: nat)
    requires Ordered(es) && i < j < |es| && !AdjacentClash(es)
    ensures Less(es[i].key, es[j].key)
  {
    Trichotomy(es[i].key, es[i + 1].key);
    assert es[i].key != es[i + 1].key;
    Trichotomy(es[i].key, es[j].key);
    if i + 1 < j {
      assert !Less(es[j].key, es[i + 1].key);
    }
  }

  // ----- Permutations -----

  lemma {:induction false} OnceEach(es: seq<Entry>, e: Entry)
    requires DistinctKeys(es)
    ensures multiset(es)[e] <= 1
  {
    if es != [] {
      var n := |es| - 1;
      OnceEach(es[..n], e);
      assert es == es[..n] + [es[n]];
      if e == es[n] {
        assert e !in es[..n];
        assert multiset(es[..n])[e] == 0;
      }
    }
  }

  lemma TwiceThere(es: seq<Entry>, i: nat, j: nat)
    requires i < j < |es| && es[i] == es[j]
    ensures multiset(es)[es[i]] >= 2
  {
    assert es == es[..j] + [es[j]] + es[j + 1..];
    assert es[..j][i] == es[i];
    assert es[i] in multiset(es[..j]);
  }

  lemma PermutedDistinct(a: seq<Entry>, b: seq<Entry>)
    requires multiset(a) == multiset(b) && DistinctKeys(a)
    ensures DistinctKeys(b)
  {
    forall i, j | 0 <= i < j < |b| ensures b[i].key != b[j].key {
      if b[i] == b[j] {
        TwiceThere(b, i, j);
        OnceEach(a, b[i]);
      } else {
        assert b[i] in multiset(a) && b[j] in multiset(a);
        var k :| 0 <= k < |a| && a[k] == b[i];
        var l :| 0 <= l < |a| && a[l] == b[j];
      }
    }
  }

  // Strictly ordered sequences with the same entries are the same sequence.
  lemma {:induction false} OrderIsUnique(a: seq<Entry>, b: seq<Entry>)
    requires StrictlyOrdered(a) && StrictlyOrdered(b)
    requires forall e :: e in a <==> e in b
    ensures a == b
  {
    assert b == [] || b[0] in b;
    if a != [] {
      assert a[0] in b;
      var m, n := |a| - 1, |b| - 1;
      LastIsGreatest(a, b);
      forall e | e in a[..m] ensures e in b[..n] {
        LastIsApart(a, e);
      }
      forall e | e in b[..n] ensures e in a[..m] {
        LastIsApart(b, e);
      }
      OrderIsUnique(a[..m], b[..n]);
      assert a == a[..m] + [a[m]] && b == b[..n] + [b[n]];
    }
  }

  lemma LastIsGreatest(a: seq<Entry>, b: seq<Entry>)
    requires StrictlyOrdered(a) && StrictlyOrdered(b) && a != [] && b != []
    requires forall e :: e in a <==> e in b
    ensures a[|a| - 1] == b[|b| - 1]
  {
    var x, y := a[|a| - 1], b[|b| - 1];
    assert x in b && y in a;
    var i :| 0 <= i < |b| && b[i] == x;
    var j :| 0 <= j < |a| && a[j] == y;
    if i < |b| - 1 && j < |a| - 1 {
      Trichotomy(x.key, y.key);
    }
  }

  lemma LastIsApart(a: seq<Entry>, e: Entry)
    requires StrictlyOrdered(a) && a != [] && e in a[..|a| - 1]
    ensures e in a && e != a[|a| - 1]
  {
    var i :| 0 <= i < |a| - 1 && a[..|a| - 1][i] == e;
    assert a[i] == e;
    Trichotomy(e.key, a[|a| - 1].key);
  }

  // ----- The fields of an object, whatever their order -----

  ghost predicate AllMean(p: Platform, es: seq<Entry>) {
    forall i :: 0 <= i < |es| ==> MeaningOf(p, es[i].value).Some?
  }

  ghost predicate DistinctNormal(p: Platform, es: seq<Entry>) {
    forall i, j :: 0 <= i < j < |es| ==> p.nfc(es[i].key) != p.nfc(es[j].key)
  }

  // `f` maps each normalized key to the meaning of its value.
  ghost predicate Tells(p: Platform, es: seq<Entry>, f: map<Text, Meaning>) {
    && (forall i :: 0 <= i < |es| ==>
          p.nfc(es[i].key) in f && MeaningOf(p, es[i].value) == Some(f[p.nfc(es[i].key)]))
    && (forall k :: k in f ==> exists i :: 0 <= i < |es| && p.nfc(es[i].key) == k)
  }

  lemma {:induction false} FieldsExact(p: Platform, es: seq<Entry>)
    ensures Fields(p, es).Some? <==> AllMean(p, es) && DistinctNormal(p, es)
    ensures Fields(p, es).Some? ==> Tells(p, es, Fields(p, es).value)
  {
    if es != [] {
      var n := |es| - 1;
      var rest := es[..n];
      FieldsExact(p, rest);
      var before, last := Fields(p, rest), MeaningOf(p, es[n].value);
      if before.Some? && last.Some? {
        FieldsStep(p, es, before.value, last.value);
      } else if before.None? {
        assert !AllMean(p, rest) || !DistinctNormal(p, rest);
      }
    }
  }

  lemma FieldsStep(p: Platform, es: seq<Entry>, before: map<Text, Meaning>, last: Meaning)
    requires es != [] && Tells(p, es[..|es| - 1], before) && MeaningOf(p, es[|es| - 1].value) == Some(last)
    requires AllMean(p, es[..|es| - 1]) && DistinctNormal(p, es[..|es| - 1])
    ensures AllMean(p, es)
    ensures p.nfc(es[|es| - 1].key) in before <==> !DistinctNormal(p, es)
    ensures p.nfc(es[|es| - 1].key) !in before ==> Tells(p, es, before[p.nfc(es[|es| - 1].key) := last])
  {
    var n := |es| - 1;
    AllMeanMore(p, es);
    if p.nfc(es[n].key) in before {
      var i :| 0 <= i < n && p.nfc(es[..n][i].key) == p.nfc(es[n].key);
      assert es[i] == es[..n][i];
    } else {
      TellsMore(p, es, before, last);
      DistinctMore(p, es, before);
    }
  }

  lemma AllMeanMore(p: Platform, es: seq<Entry>)
    requires es != [] && AllMean(p, es[..|es| - 1]) && MeaningOf(p, es[|es| - 1].value).Some?
    ensures AllMean(p, es)
  {
    forall i | 0 <= i < |es| - 1 ensures MeaningOf(p, es[i].value).Some? {
      assert es[..|es| - 1][i] == es[i];
    }
  }

  lemma DistinctMore(p: Platform, es: seq<Entry>, before: map<Text, Meaning>)
    requires es != [] && Tells(p, es[..|es| - 1], before) && DistinctNormal(p, es[..|es| - 1])
    requires p.nfc(es[|es| - 1].key) !in before
    ensures DistinctNormal(p, es)
  {
    var n := |es| - 1;
    forall i, j | 0 <= i < j < |es| ensures p.nfc(es[i].key) != p.nfc(es[j].key) {
      assert es[i] == es[..n][i] && (j < n ==> es[j] == es[..n][j]);
    }
  }

  lemma TellsMore(p: Platform, es: seq<Entry>, before: map<Text, Meaning>, last: Meaning)
    requires es != [] && Tells(p, es[..|es| - 1], before) && MeaningOf(p, es[|es| - 1].value) == Some(last)
    requires p.nfc(es[|es| - 1].key) !in before
    ensures Tells(p, es, before[p.nfc(es[|es| - 1].key) := last])
  {
    var n := |es| - 1;
    var rest, key := es[..n], p.nfc(es[n].key);
    forall k | k in before ensures exists i :: 0 <= i < |es| && p.nfc(es[i].key) == k {
      var i :| 0 <= i < |rest| && p.nfc(rest[i].key) == k;
      assert es[i] == rest[i];
    }
    forall i | 0 <= i < n ensures p.nfc(es[i].key) in before && MeaningOf(p, es[i].value) == Some(before[p.nfc(es[i].key)]) {
      assert es[i] == rest[i];
    }
  }

  lemma TellsOne(p: Platform, es: seq<Entry>, f: map<Text, Meaning>, g: map<Text, Meaning>)
    requires Tells(p, es, f) && Tells(p, es, g)
    ensures f == g
  {
    forall k | k in f ensures k in g && f[k] == g[k] {
      var i :| 0 <= i < |es| && p.nfc(es[i].key) == k;
    }
    forall k | k in g ensures k in f {
      var i :| 0 <= i < |es| && p.nfc(es[i].key) == k;
    }
  }

  // ----- Canonicalizing keeps the meaning -----

  // Entry by entry: the key normalized, the value replaced by one with the same meaning.
  ghost predicate Renders(p: Platform, es: seq<Entry>, ns: seq<Entry>) {
    |ns| == |es| && forall i :: 0 <= i < |es| ==>
      && ns[i].key == p.nfc(es[i].key)
      && MeaningOf(p, ns[i].value) == MeaningOf(p, es[i].value) && MeaningOf(p, es[i].value).Some?
  }

  lemma {:induction false} CanonicalKeepsMeaning(p: Platform, v: Json)
    requires Sound(p)
    ensures Canonicalize(p, v).Ok? <==> MeaningOf(p, v).Some?
    ensures Canonicalize(p, v).Ok? ==> MeaningOf(p, Canonicalize(p, v).value) == MeaningOf(p, v)
    decreases v
  {
    match v
    case Array(items) => ItemsKeepMeaning(p, items);
    case Object(entries) =>
      EntriesKeepMeaning(p, entries);
      FieldsExact(p, entries);
      if CanonicalEntries(p, entries).Ok? {
        ObjectKeepsMeaning(p, entries, CanonicalEntries(p, entries).value);
      }
    case _ =>
  }

  lemma {:induction false} ItemsKeepMeaning(p: Platform, items: seq<Json>)
    requires Sound(p)
    ensures CanonicalItems(p, items).Ok? <==> Meanings(p, items).Some?
    ensures CanonicalItems(p, items).Ok? ==> Meanings(p, CanonicalItems(p, items).value) == Meanings(p, items)
    decreases items
  {
    if items != [] {
      var n := |items| - 1;
      ItemsKeepMeaning(p, items[..n]);
      CanonicalKeepsMeaning(p, items[n]);
      if CanonicalItems(p, items).Ok? {
        var out := CanonicalItems(p, items).value;
        assert out[..|out| - 1] == CanonicalItems(p, items[..n]).value;
      }
    }
  }

  lemma {:induction false} EntriesKeepMeaning(p: Platform, es: seq<Entry>)
    requires Sound(p)
    ensures CanonicalEntries(p, es).Ok? <==> AllMean(p, es)
    ensures CanonicalEntries(p, es).Ok? ==> Renders(p, es, CanonicalEntries(p, es).value)
    decreases es
  {
    if es != [] {
      var n := |es| - 1;
      EntriesKeepMeaning(p, es[..n]);
      CanonicalKeepsMeaning(p, es[n].value);
      assert AllMean(p, es) <==> AllMean(p, es[..n]) && MeaningOf(p, es[n].value).Some? by {
        assert forall i :: 0 <= i < n ==> es[..n][i] == es[i];
      }
    }
  }

  lemma ObjectKeepsMeaning(p: Platform, es: seq<Entry>, ns: seq<Entry>)
    requires Sound(p) && Renders(p, es, ns)
    ensures AdjacentClash(Sort(ns)) <==> Fields(p, es).None?
    ensures !AdjacentClash(Sort(ns)) ==> Fields(p, p.own(Sort(ns))) == Fields(p, es)
  {
    FieldsExact(p, es);
    SortSorts(ns);
    var sorted := Sort(ns);
    NeighboursTellAll(sorted);
    assert DistinctKeys(ns) <==> DistinctNormal(p, es);
    if DistinctKeys(ns) { PermutedDistinct(ns, sorted); }
    if DistinctKeys(sorted) {
      PermutedDistinct(sorted, ns);
      RenderedFields(p, es, ns);
      PermutedMeaning(p, ns, p.own(sorted));
    }
  }

  lemma RenderedFields(p: Platform, es: seq<Entry>, ns: seq<Entry>)
    requires Sound(p) && Renders(p, es, ns)
    ensures Fields(p, ns) == Fields(p, es)
  {
    SpellingMeansNothing(p, es, ns);
  }

  // ----- Equal meanings have equal canonical forms -----

  lemma {:induction false} SameMeaningSameForm(p: Platform, v: Json, w: Json)
    requires Sound(p) && MeaningOf(p, v).Some? && MeaningOf(p, v) == MeaningOf(p, w)
    ensures Canonicalize(p, v) == Canonicalize(p, w)
    decreases v
  {
    match v
    case Array(items) => SameItems(p, items, w.items);
    case Object(entries) => SameObjects(p, entries, w.entries);
    case _ =>
  }

  lemma {:induction false} SameItems(p: Platform, a: seq<Json>, b: seq<Json>)
    requires Sound(p) && Meanings(p, a).Some? && Meanings(p, a) == Meanings(p, b)
    ensures CanonicalItems(p, a) == CanonicalItems(p, b)
    decreases a
  {
    if a != [] {
      var m, n := |a| - 1, |b| - 1;
      var all := Meanings(p, a).value;
      assert b != [];
      assert all[..|all| - 1] == Meanings(p, a[..m]).value == Meanings(p, b[..n]).value;
      SameItems(p, a[..m], b[..n]);
      SameMeaningSameForm(p, a[m], b[n]);
    } else {
      assert b == [];
    }
  }

  // What canonicalizing the entries yields, position by position.
  lemma {:induction false} EntriesExact(p: Platform, es: seq<Entry>)
    requires Sound(p) && AllMean(p, es)
    ensures CanonicalEntries(p, es).Ok? && |CanonicalEntries(p, es).value| == |es|
    ensures forall i :: 0 <= i < |es| ==>
              Ok(CanonicalEntries(p, es).value[i].value) == Canonicalize(p, es[i].value)
              && CanonicalEntries(p, es).value[i].key == p.nfc(es[i].key)
  {
    if es != [] {
      var n := |es| - 1;
      assert forall i :: 0 <= i < n ==> es[..n][i] == es[i];
      EntriesExact(p, es[..n]);
      CanonicalKeepsMeaning(p, es[n].value);
    }
  }

  lemma SameEntry(p: Platform, es: seq<Entry>, fs: seq<Entry>, f: map<Text, Meaning>, i: nat) returns (j: nat)
    requires Tells(p, es, f) && Tells(p, fs, f) && i < |es|
    ensures j < |fs| && p.nfc(fs[j].key) == p.nfc(es[i].key)
    ensures MeaningOf(p, fs[j].value) == MeaningOf(p, es[i].value) && MeaningOf(p, es[i].value).Some?
  {
    assert p.nfc(es[i].key) in f;
    j :| 0 <= j < |fs| && p.nfc(fs[j].key) == p.nfc(es[i].key);
  }

  lemma {:induction false} SameSorted(ns: seq<Entry>, ms: seq<Entry>)
    requires DistinctKeys(ns) && DistinctKeys(ms) && SameEntries(ns, ms)
    ensures Sort(ns) == Sort(ms)
  {
    SortedStrictly(ns);
    SortedStrictly(ms);
    OrderIsUnique(Sort(ns), Sort(ms));
  }

  lemma SortedStrictly(ns: seq<Entry>)
    requires DistinctKeys(ns)
    ensures StrictlyOrdered(Sort(ns)) && forall e :: e in Sort(ns) <==> e in ns
  {
    SortSorts(ns);
    PermutedDistinct(ns, Sort(ns));
    NeighboursTellAll(Sort(ns));
    forall e ensures e in Sort(ns) <==> e in ns {
      assert e in ns <==> e in multiset(ns);
      assert e in Sort(ns) <==> e in multiset(Sort(ns));
    }
  }

  ghost predicate SameEntries(ns: seq<Entry>, ms: seq<Entry>) {
    (forall i :: 0 <= i < |ns| ==> ns[i] in ms) && (forall j :: 0 <= j < |ms| ==> ms[j] in ns)
  }

  lemma {:induction false} SameObjects(p: Platform, es: seq<Entry>, fs: seq<Entry>)
    requires Sound(p) && Fields(p, es).Some? && Fields(p, es) == Fields(p, fs)
    ensures Canonicalize(p, Object(es)) == Canonicalize(p, Object(fs))
    decreases es, 2
  {
    EntriesMean(p, es);
    EntriesMean(p, fs);
    var ns, ms := CanonicalEntries(p, es).value, CanonicalEntries(p, fs).value;
    EntriesSame(p, es, fs);
    SameSorted(ns, ms);
    ObjectForm(p, es, ns);
    ObjectForm(p, fs, ms);
  }

  function FormOf(p: Platform, sorted: seq<Entry>): Result<Json, Error> {
    if AdjacentClash(sorted) then Err(DuplicateKeys) else Ok(Object(p.own(sorted)))
  }

  lemma ObjectForm(p: Platform, es: seq<Entry>, ns: seq<Entry>)
    requires CanonicalEntries(p, es) == Ok(ns)
    ensures Canonicalize(p, Object(es)) == FormOf(p, Sort(ns))
  {
  }

  lemma EntriesMean(p: Platform, es: seq<Entry>)
    requires Sound(p) && Fields(p, es).Some?
    ensures CanonicalEntries(p, es).Ok? && DistinctKeys(CanonicalEntries(p, es).value)
  {
    FieldsExact(p, es);
    EntriesExact(p, es);
    DistinctCanonical(p, es, CanonicalEntries(p, es).value);
  }

  lemma {:induction false} EntriesSame(p: Platform, es: seq<Entry>, fs: seq<Entry>)
    requires Sound(p) && Fields(p, es).Some? && Fields(p, es) == Fields(p, fs)
    ensures CanonicalEntries(p, es).Ok? && CanonicalEntries(p, fs).Ok?
    ensures SameEntries(CanonicalEntries(p, es).value, CanonicalEntries(p, fs).value)
    decreases es, 1
  {
    EntriesMean(p, es);
    EntriesMean(p, fs);
    var ns, ms := CanonicalEntries(p, es).value, CanonicalEntries(p, fs).value;
    forall i | 0 <= i < |ns| ensures ns[i] in ms {
      EntriesLength(p, es);
      EntryThere(p, es, fs, i);
    }
    forall j | 0 <= j < |ms| ensures ms[j] in ns {
      EntriesLength(p, fs);
      EntryBack(p, es, fs, j);
    }
  }

  lemma {:induction false} EntriesLength(p: Platform, es: seq<Entry>)
    requires CanonicalEntries(p, es).Ok?
    ensures |CanonicalEntries(p, es).value| == |es|
  {
    if es != [] {
      EntriesLength(p, es[..|es| - 1]);
    }
  }

  lemma DistinctCanonical(p: Platform, es: seq<Entry>, ns: seq<Entry>)
    requires DistinctNormal(p, es) && |ns| == |es| && forall i :: 0 <= i < |es| ==> ns[i].key == p.nfc(es[i].key)
    ensures DistinctKeys(ns)
  {
  }

  lemma {:induction false} EntryThere(p: Platform, es: seq<Entry>, fs: seq<Entry>, i: nat)
    requires Sound(p) && Fields(p, es).Some? && Fields(p, es) == Fields(p, fs) && i < |es|
    ensures CanonicalEntries(p, es).Ok? && CanonicalEntries(p, fs).Ok?
    ensures i < |CanonicalEntries(p, es).value| && CanonicalEntries(p, es).value[i] in CanonicalEntries(p, fs).value
    decreases es, 0
  {
    FieldsExact(p, es);
    FieldsExact(p, fs);
    EntriesExact(p, es);
    EntriesExact(p, fs);
    var j := SameEntry(p, es, fs, Fields(p, es).value, i);
    SameMeaningSameForm(p, es[i].value, fs[j].value);
    assert CanonicalEntries(p, fs).value[j] == CanonicalEntries(p, es).value[i];
  }

  lemma {:induction false} EntryBack(p: Platform, es: seq<Entry>, fs: seq<Entry>, j: nat)
    requires Sound(p) && Fields(p, es).Some? && Fields(p, es) == Fields(p, fs) && j < |fs|
    ensures CanonicalEntries(p, es).Ok? && CanonicalEntries(p, fs).Ok?
    ensures j < |CanonicalEntries(p, fs).value| && CanonicalEntries(p, fs).value[j] in CanonicalEntries(p, es).value
    decreases es, 0
  {
    FieldsExact(p, es);
    FieldsExact(p, fs);
    EntriesExact(p, es);
    EntriesExact(p, fs);
    var i := SameEntry(p, fs, es, Fields(p, es).value, j);
    SameMeaningSameForm(p, es[i].value, fs[j].value);
    assert CanonicalEntries(p, es).value[i] == CanonicalEntries(p, fs).value[j];
  }

  // ----- Main results -----

  // Two values have the same canonical form if and only if they mean the same; canonicalizing fails
  // exactly on the values with a clash of normalized keys somewhere in them.
  lemma {:induction false} FormTellsMeaning(p: Platform, v: Json, w: Json)
    requires Sound(p) && Canonicalize(p, v).Ok?
    ensures Canonicalize(p, v) == Canonicalize(p, w) <==> MeaningOf(p, v) == MeaningOf(p, w)
  {
    CanonicalKeepsMeaning(p, v);
    CanonicalKeepsMeaning(p, w);
    if MeaningOf(p, v) == MeaningOf(p, w) {
      SameMeaningSameForm(p, v, w);
    }
  }

  // A canonical form is its own canonical form.
  lemma {:induction false} Idempotent(p: Platform, v: Json)
    requires Sound(p) && Canonicalize(p, v).Ok?
    ensures Canonicalize(p, Canonicalize(p, v).value) == Canonicalize(p, v)
  {
    CanonicalKeepsMeaning(p, v);
    SameMeaningSameForm(p, v, Canonicalize(p, v).value);
  }

  // The order of the keys of an object means nothing, and neither decides whether it has a clash.
  lemma OrderMeansNothing(p: Platform, es: seq<Entry>, fs: seq<Entry>)
    requires multiset(es) == multiset(fs)
    ensures MeaningOf(p, Object(es)) == MeaningOf(p, Object(fs))
  {
    if Fields(p, es).Some? {
      PermutedMeaning(p, es, fs);
    } else if Fields(p, fs).Some? {
      PermutedMeaning(p, fs, es);
    }
  }

  lemma PermutedMeaning(p: Platform, es: seq<Entry>, fs: seq<Entry>)
    requires multiset(es) == multiset(fs) && Fields(p, es).Some?
    ensures Fields(p, fs) == Fields(p, es)
  {
    FieldsExact(p, es);
    FieldsExact(p, fs);
    var f := Fields(p, es).value;
    forall i | 0 <= i < |fs|
      ensures p.nfc(fs[i].key) in f && MeaningOf(p, fs[i].value) == Some(f[p.nfc(fs[i].key)])
    {
      assert fs[i] in multiset(es);
      var j :| 0 <= j < |es| && es[j] == fs[i];
    }
    forall k | k in f ensures exists i :: 0 <= i < |fs| && p.nfc(fs[i].key) == k {
      var j :| 0 <= j < |es| && p.nfc(es[j].key) == k;
      assert es[j] in multiset(fs);
      var i :| 0 <= i < |fs| && fs[i] == es[j];
    }
    PermutedNormal(p, es, fs);
    TellsOne(p, fs, f, Fields(p, fs).value);
  }

  lemma PermutedNormal(p: Platform, es: seq<Entry>, fs: seq<Entry>)
    requires multiset(es) == multiset(fs) && DistinctNormal(p, es)
    ensures DistinctNormal(p, fs)
  {
    PermutedDistinct(es, fs);
    forall i, j | 0 <= i < j < |fs| ensures p.nfc(fs[i].key) != p.nfc(fs[j].key) {
      assert fs[i] in multiset(es) && fs[j] in multiset(es);
      var k :| 0 <= k < |es| && es[k] == fs[i];
      var l :| 0 <= l < |es| && es[l] == fs[j];
      assert fs[i].key != fs[j].key;
      assert k != l;
      if k < l {
        assert p.nfc(es[k].key) != p.nfc(es[l].key);
      } else {
        assert p.nfc(es[l].key) != p.nfc(es[k].key);
      }
    }
  }

  // Replacing keys by ones with the same normal form and values by ones that mean the same, at any
  // depth, means nothing.
  lemma {:induction false} SpellingMeansNothing(p: Platform, es: seq<Entry>, fs: seq<Entry>)
    requires |es| == |fs|
    requires forall i :: 0 <= i < |es| ==>
               p.nfc(es[i].key) == p.nfc(fs[i].key) && MeaningOf(p, es[i].value) == MeaningOf(p, fs[i].value)
    ensures MeaningOf(p, Object(es)) == MeaningOf(p, Object(fs))
  {
    if es != [] {
      var n := |es| - 1;
      SpellingMeansNothing(p, es[..n], fs[..n]);
      assert p.nfc(es[n].key) == p.nfc(fs[n].key);
    }
  }

  // A retry with its keys in another order has the canonical text of the first, and so its hash.
  lemma ReorderedRetryHasTheSameForm(p: Platform, es: seq<Entry>, fs: seq<Entry>)
    requires Sound(p) && multiset(es) == multiset(fs)
    ensures Canonicalize(p, Object(es)) == Canonicalize(p, Object(fs))
  {
    OrderMeansNothing(p, es, fs);
    CanonicalKeepsMeaning(p, Object(es));
    CanonicalKeepsMeaning(p, Object(fs));
    if Canonicalize(p, Object(es)).Ok? {
      SameMeaningSameForm(p, Object(es), Object(fs));
    }
  }

  // ----- Rewriting at any depth -----

  // `w` is `v` with keys and strings respelled within their normal forms and the keys of any object,
  // however deep, in any order.
  ghost predicate Rewritten(p: Platform, v: Json, w: Json)
    decreases v
  {
    match v
    case String(s) => w.String? && p.nfc(s) == p.nfc(w.s)
    case Array(items) =>
      w.Array? && |items| == |w.items| && forall i :: 0 <= i < |items| ==> Rewritten(p, items[i], w.items[i])
    case Object(entries) =>
      w.Object? && exists gs: seq<Entry> :: multiset(gs) == multiset(w.entries) && RewrittenEntries(p, entries, gs)
    case _ => v == w
  }

  ghost predicate RewrittenEntries(p: Platform, es: seq<Entry>, gs: seq<Entry>)
    decreases es
  {
    |es| == |gs| && forall i :: 0 <= i < |es| ==>
      p.nfc(es[i].key) == p.nfc(gs[i].key) && Rewritten(p, es[i].value, gs[i].value)
  }

  lemma {:induction false} RewrittenMeansTheSame(p: Platform, v: Json, w: Json)
    requires Rewritten(p, v, w)
    ensures MeaningOf(p, v) == MeaningOf(p, w)
    decreases v
  {
    match v
    case Array(items) =>
      forall i | 0 <= i < |items| ensures MeaningOf(p, items[i]) == MeaningOf(p, w.items[i]) {
        RewrittenMeansTheSame(p, items[i], w.items[i]);
      }
      SameMeanings(p, items, w.items);
    case Object(entries) =>
      var gs: seq<Entry> :| multiset(gs) == multiset(w.entries) && RewrittenEntries(p, entries, gs);
      forall i | 0 <= i < |entries| ensures MeaningOf(p, entries[i].value) == MeaningOf(p, gs[i].value) {
        RewrittenMeansTheSame(p, entries[i].value, gs[i].value);
      }
      SpellingMeansNothing(p, entries, gs);
      OrderMeansNothing(p, gs, w.entries);
    case _ =>
  }

  lemma {:induction false} SameMeanings(p: Platform, a: seq<Json>, b: seq<Json>)
    requires |a| == |b| && forall i :: 0 <= i < |a| ==> MeaningOf(p, a[i]) == MeaningOf(p, b[i])
    ensures Meanings(p, a) == Meanings(p, b)
  {
    if a != [] {
      SameMeanings(p, a[..|a| - 1], b[..|b| - 1]);
    }
  }

  // Rewriting at any depth leaves the canonical form, or the refusal, as it was.
  lemma RewrittenHasTheSameForm(p: Platform, v: Json, w: Json)
    requires Sound(p) && Rewritten(p, v, w)
    ensures Canonicalize(p, v) == Canonicalize(p, w)
  {
    RewrittenMeansTheSame(p, v, w);
    CanonicalKeepsMeaning(p, v);
    CanonicalKeepsMeaning(p, w);
    if Canonicalize(p, v).Ok? {
      SameMeaningSameForm(p, v, w);
    }
  }

  function Dropped(es: seq<Entry>, j: nat): seq<Entry>
    requires j < |es|
  {
    es[..j] + es[j + 1..]
  }

  lemma DroppedAt(es: seq<Entry>, j: nat)
    requires j < |es|
    ensures |Dropped(es, j)| == |es| - 1 && multiset(Dropped(es, j)) + multiset{es[j]} == multiset(es)
    ensures forall i :: 0 <= i < |es| - 1 ==> Dropped(es, j)[i] == es[if i < j then i else i + 1]
  {
    assert es == es[..j] + [es[j]] + es[j + 1..];
  }

  lemma DroppedDistinct(p: Platform, es: seq<Entry>, j: nat)
    requires DistinctNormal(p, es) && j < |es|
    ensures DistinctNormal(p, Dropped(es, j))
    ensures forall i :: 0 <= i < |es| && i != j ==> p.nfc(es[i].key) != p.nfc(es[j].key)
  {
    DroppedAt(es, j);
  }

  lemma DroppedEntry(p: Platform, es: seq<Entry>, f: map<Text, Meaning>, j: nat, i: nat)
    requires Tells(p, es, f) && DistinctNormal(p, es) && j < |es| && i < |Dropped(es, j)|
    ensures var e := Dropped(es, j)[i];
            && p.nfc(e.key) in f && p.nfc(e.key) != p.nfc(es[j].key)
            && MeaningOf(p, e.value) == Some(f[p.nfc(e.key)])
  {
    var k := if i < j then i else i + 1;
    assert Dropped(es, j)[i] == es[k];
    assert k < j || j < k;
  }

  lemma DroppedKey(p: Platform, es: seq<Entry>, f: map<Text, Meaning>, j: nat, k: Text)
    requires Tells(p, es, f) && j < |es| && k in f && k != p.nfc(es[j].key)
    ensures exists i :: 0 <= i < |Dropped(es, j)| && p.nfc(Dropped(es, j)[i].key) == k
  {
    var i :| 0 <= i < |es| && p.nfc(es[i].key) == k;
    assert Dropped(es, j)[if i < j then i else i - 1] == es[i];
  }

  lemma DroppedTells(p: Platform, es: seq<Entry>, f: map<Text, Meaning>, j: nat)
    requires Tells(p, es, f) && DistinctNormal(p, es) && j < |es|
    ensures Tells(p, Dropped(es, j), f - {p.nfc(es[j].key)})
  {
    var rest, f' := Dropped(es, j), f - {p.nfc(es[j].key)};
    forall i | 0 <= i < |rest|
      ensures p.nfc(rest[i].key) in f' && MeaningOf(p, rest[i].value) == Some(f'[p.nfc(rest[i].key)])
    {
      DroppedEntry(p, es, f, j, i);
    }
    forall k | k in f' ensures exists i :: 0 <= i < |rest| && p.nfc(rest[i].key) == k {
      DroppedKey(p, es, f, j, k);
    }
  }

  // The entries of one object put in the order of another with the same fields.
  lemma {:induction false} Aligned(p: Platform, es: seq<Entry>, fs: seq<Entry>, f: map<Text, Meaning>)
    returns (gs: seq<Entry>)
    requires Tells(p, es, f) && Tells(p, fs, f) && DistinctNormal(p, es) && DistinctNormal(p, fs)
    ensures multiset(gs) == multiset(fs) && |gs| == |es|
    ensures forall i :: 0 <= i < |es| ==>
              p.nfc(es[i].key) == p.nfc(gs[i].key) && MeaningOf(p, es[i].value) == MeaningOf(p, gs[i].value)
    decreases |es|
  {
    assert fs == [] || p.nfc(fs[0].key) in f;
    if es == [] {
      gs := [];
    } else {
      var n := |es| - 1;
      var j := SameEntry(p, es, fs, f, n);
      DroppedTells(p, es, f, n);
      DroppedDistinct(p, es, n);
      DroppedTells(p, fs, f, j);
      DroppedDistinct(p, fs, j);
      assert Dropped(es, n) == es[..n];
      var rest := Aligned(p, es[..n], Dropped(fs, j), f - {p.nfc(es[n].key)});
      DroppedAt(fs, j);
      gs := rest + [fs[j]];
    }
  }

  lemma {:induction false} SameMeaningIsRewritten(p: Platform, v: Json, w: Json)
    requires MeaningOf(p, v).Some? && MeaningOf(p, v) == MeaningOf(p, w)
    ensures Rewritten(p, v, w)
    decreases v
  {
    match v
    case Array(items) =>
      MeaningsAt(p, items);
      MeaningsAt(p, w.items);
      forall i | 0 <= i < |items| ensures Rewritten(p, items[i], w.items[i]) {
        SameMeaningIsRewritten(p, items[i], w.items[i]);
      }
    case Object(entries) =>
      FieldsExact(p, entries);
      FieldsExact(p, w.entries);
      var gs := Aligned(p, entries, w.entries, Fields(p, entries).value);
      forall i | 0 <= i < |entries| ensures Rewritten(p, entries[i].value, gs[i].value) {
        SameMeaningIsRewritten(p, entries[i].value, gs[i].value);
      }
      assert RewrittenEntries(p, entries, gs);
    case _ =>
  }

  lemma {:induction false} MeaningsAt(p: Platform, items: seq<Json>)
    requires Meanings(p, items).Some?
    ensures |Meanings(p, items).value| == |items|
    ensures forall i :: 0 <= i < |items| ==> MeaningOf(p, items[i]) == Some(Meanings(p, items).value[i])
  {
    if items != [] {
      MeaningsAt(p, items[..|items| - 1]);
    }
  }

  // Two values have one canonical form if and only if the one is a rewriting of the other.
  lemma FormTellsRewriting(p: Platform, v: Json, w: Json)
    requires Sound(p) && Canonicalize(p, v).Ok?
    ensures Canonicalize(p, v) == Canonicalize(p, w) <==> Rewritten(p, v, w)
  {
    FormTellsMeaning(p, v, w);
    CanonicalKeepsMeaning(p, v);
    if Rewritten(p, v, w) {
      RewrittenMeansTheSame(p, v, w);
    } else if MeaningOf(p, v) == MeaningOf(p, w) {
      SameMeaningIsRewritten(p, v, w);
    }
  }
}
