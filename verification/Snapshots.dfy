// Splitting a snapshot's JSON text into parts that fit a frame.
module Snapshots {
  import opened Unicode

  datatype Part = Part(index: nat, json: seq<CodePoint>)

  // The JSON text of an empty object.
  const EMPTY_OBJECT: seq<CodePoint> := [0x7B, 0x7D]

  function ByteLength(s: seq<CodePoint>): nat {
    if s == [] then 0 else ByteLength(s[..|s| - 1]) + Utf8Length(s[|s| - 1])
  }

  function Concat(parts: seq<seq<CodePoint>>): seq<CodePoint> {
    if parts == [] then [] else Concat(parts[..|parts| - 1]) + parts[|parts| - 1]
  }

  predicate Fits(part: seq<CodePoint>, maxBytes: nat) {
    ByteLength(part) <= maxBytes || |part| == 1
  }

  function Texts(parts: seq<Part>): seq<seq<CodePoint>> {
    seq(|parts|, i requires 0 <= i < |parts| => parts[i].json)
  }

  ghost predicate Greedy(texts: seq<seq<CodePoint>>, maxBytes: nat) {
    && (forall i :: 0 <= i < |texts| ==> texts[i] != [] && Fits(texts[i], maxBytes))
    && (forall i :: 0 <= i < |texts| - 1 ==> Overflows(texts, i, maxBytes))
  }

  // The first character of the next part would not have fitted this one.
  ghost predicate Overflows(texts: seq<seq<CodePoint>>, i: nat, maxBytes: nat)
    requires i + 1 < |texts|
  {
    texts[i + 1] != [] && ByteLength(texts[i] + [texts[i + 1][0]]) > maxBytes
  }

  // The parts a snapshot is sent as.
  ghost predicate IsFragmentation(parts: seq<Part>, json: seq<CodePoint>, maxBytes: nat) {
    && (forall i :: 0 <= i < |parts| ==> parts[i].index == i)
    && if json == [] then parts == [Part(0, EMPTY_OBJECT)]
       else Concat(Texts(parts)) == json && Greedy(Texts(parts), maxBytes)
  }

  // Finished parts plus an unfinished last one cover the text read so far.
  ghost predicate Building(parts: seq<Part>, fragment: seq<CodePoint>, prefix: seq<CodePoint>, maxBytes: nat) {
    && (forall i :: 0 <= i < |parts| ==> parts[i].index == i)
    && Concat(Texts(parts)) + fragment == prefix
    && if prefix == [] then parts == [] else fragment != [] && Greedy(Texts(parts) + [fragment], maxBytes)
  }

  lemma AppendsOne(fragment: seq<CodePoint>, c: CodePoint)
    ensures ByteLength(fragment + [c]) == ByteLength(fragment) + Utf8Length(c)
  {
    assert (fragment + [c])[..|fragment|] == fragment;
  }

  lemma GrowLast(texts: seq<seq<CodePoint>>, last: seq<CodePoint>, c: CodePoint, maxBytes: nat)
    requires last != [] && Greedy(texts + [last], maxBytes) && ByteLength(last + [c]) <= maxBytes
    ensures Greedy(texts + [last + [c]], maxBytes)
  {
    var n := |texts|;
    var a, b := texts + [last], texts + [last + [c]];
    assert forall i :: 0 <= i < n ==> a[i] == texts[i] == b[i] && a[i] != [] && Fits(a[i], maxBytes);
    forall i | 0 <= i < n ensures Overflows(b, i, maxBytes) {
      assert Overflows(a, i, maxBytes);
      assert b[i + 1][0] == a[i + 1][0];
    }
  }

  lemma Grow(parts: seq<Part>, fragment: seq<CodePoint>, prefix: seq<CodePoint>, c: CodePoint, maxBytes: nat)
    requires Building(parts, fragment, prefix, maxBytes)
    requires fragment == [] || ByteLength(fragment) + Utf8Length(c) <= maxBytes
    ensures Building(parts, fragment + [c], prefix + [c], maxBytes)
    ensures ByteLength(fragment + [c]) == ByteLength(fragment) + Utf8Length(c)
  {
    AppendsOne(fragment, c);
    var texts := Texts(parts);
    assert Concat(texts) + (fragment + [c]) == prefix + [c];
    if fragment == [] {
      assert texts == [] && |[c]| == 1;
      assert texts + [fragment + [c]] == [[c]];
    } else {
      GrowLast(texts, fragment, c, maxBytes);
    }
  }

  lemma Finish(parts: seq<Part>, fragment: seq<CodePoint>, prefix: seq<CodePoint>, maxBytes: nat)
    requires Building(parts, fragment, prefix, maxBytes)
    ensures var parts' := parts + [Part(|parts|, fragment)];
            && (forall i :: 0 <= i < |parts'| ==> parts'[i].index == i)
            && Texts(parts') == Texts(parts) + [fragment]
            && Concat(Texts(parts')) == prefix
  {
    var texts := Texts(parts);
    assert Texts(parts + [Part(|parts|, fragment)]) == texts + [fragment];
    assert (texts + [fragment])[..|texts|] == texts;
  }

  lemma Cut(parts: seq<Part>, fragment: seq<CodePoint>, prefix: seq<CodePoint>, c: CodePoint, maxBytes: nat)
    requires Building(parts, fragment, prefix, maxBytes)
    requires fragment != [] && ByteLength(fragment) + Utf8Length(c) > maxBytes
    ensures Building(parts + [Part(|parts|, fragment)], [] + [c], prefix + [c], maxBytes)
    ensures ByteLength([] + [c]) == Utf8Length(c)
  {
    AppendsOne(fragment, c);
    AppendsOne([], c);
    assert [] + [c] == [c];
    Finish(parts, fragment, prefix, maxBytes);
    var texts := Texts(parts) + [fragment];
    var b := texts + [[c]];
    assert forall i :: 0 <= i < |texts| ==> b[i] == texts[i];
    assert b[|texts|] == [c] && |[c]| == 1;
    forall i | 0 <= i < |texts| ensures Overflows(b, i, maxBytes) {
      if i + 1 < |texts| {
        assert Overflows(texts, i, maxBytes);
      }
    }
  }

  lemma Done(parts: seq<Part>, fragment: seq<CodePoint>, json: seq<CodePoint>, maxBytes: nat)
    requires Building(parts, fragment, json, maxBytes)
    ensures fragment != [] ==> IsFragmentation(parts + [Part(|parts|, fragment)], json, maxBytes)
    ensures fragment == [] ==> parts == [] && IsFragmentation([Part(0, EMPTY_OBJECT)], json, maxBytes)
  {
    if fragment != [] {
      Finish(parts, fragment, json, maxBytes);
    }
  }

  // One turn of the loop: the character joins the unfinished part, or finishes it and starts the next.
  method Take(parts: seq<Part>, fragment: seq<CodePoint>, fragmentBytes: nat, ghost prefix: seq<CodePoint>,
              character: CodePoint, maxBytes: nat)
    returns (parts': seq<Part>, fragment': seq<CodePoint>, fragmentBytes': nat)
    requires Building(parts, fragment, prefix, maxBytes) && fragmentBytes == ByteLength(fragment)
    ensures Building(parts', fragment', prefix + [character], maxBytes) && fragmentBytes' == ByteLength(fragment')
  {
    var bytes := Utf8Length(character);
    if |fragment| > 0 && fragmentBytes + bytes > maxBytes {
      Cut(parts, fragment, prefix, character, maxBytes);
      return parts + [Part(|parts|, fragment)], [character], bytes;
    }
    Grow(parts, fragment, prefix, character, maxBytes);
    return parts, fragment + [character], fragmentBytes + bytes;
  }

  method Fragment(json: seq<CodePoint>, maxBytes: nat) returns (parts: seq<Part>)
    ensures IsFragmentation(parts, json, maxBytes)
  {
    parts := [];
    var fragment: seq<CodePoint> := [];
    var fragmentBytes := 0;
    for n := 0 to |json|
      invariant Building(parts, fragment, json[..n], maxBytes)
      invariant fragmentBytes == ByteLength(fragment)
    {
      assert json[..n + 1] == json[..n] + [json[n]];
      parts, fragment, fragmentBytes := Take(parts, fragment, fragmentBytes, json[..n], json[n], maxBytes);
    }
    assert json[..|json|] == json;
    Done(parts, fragment, json, maxBytes);
    if |fragment| > 0 { parts := parts + [Part(|parts|, fragment)]; }
    if |parts| == 0 { parts := [Part(0, EMPTY_OBJECT)]; }
  }

  // ----- No other way of cutting the text uses fewer parts -----

  lemma {:induction false} ByteLengthSplit(a: seq<CodePoint>, b: seq<CodePoint>)
    ensures ByteLength(a + b) == ByteLength(a) + ByteLength(b)
    decreases |b|
  {
    if b == [] {
      assert a + b == a;
    } else {
      assert (a + b)[..|a + b| - 1] == a + b[..|b| - 1];
      ByteLengthSplit(a, b[..|b| - 1]);
    }
  }

  lemma WiderIsLonger(s: seq<CodePoint>, a: nat, b: nat, lo: nat, hi: nat)
    requires lo <= a <= b <= hi <= |s|
    ensures ByteLength(s[a..b]) <= ByteLength(s[lo..hi])
  {
    ByteLengthSplit(s[lo..a], s[a..b]);
    ByteLengthSplit(s[lo..b], s[b..hi]);
    assert s[lo..b] == s[lo..a] + s[a..b];
    assert s[lo..hi] == s[lo..b] + s[b..hi];
  }

  function End(texts: seq<seq<CodePoint>>, k: nat): nat
    requires k <= |texts|
  {
    |Concat(texts[..k])|
  }

  // The k-th part is the text between the ends of parts k - 1 and k.
  lemma {:induction false} PartIsSlice(texts: seq<seq<CodePoint>>, k: nat)
    requires k < |texts|
    ensures End(texts, k) <= End(texts, k + 1) <= |Concat(texts)|
    ensures Concat(texts)[End(texts, k)..End(texts, k + 1)] == texts[k]
    decreases |texts|
  {
    var n := |texts| - 1;
    if k < n {
      PartIsSlice(texts[..n], k);
      assert texts[..n][..k] == texts[..k] && texts[..n][..k + 1] == texts[..k + 1];
    } else {
      assert texts[..n + 1] == texts;
    }
  }

  // A greedy part, which lies in [a, b), does not fit together with the character after it.
  lemma NextOverflows(json: seq<CodePoint>, greedy: seq<seq<CodePoint>>, maxBytes: nat, i: nat, a: nat, b: nat, c: nat)
    requires Greedy(greedy, maxBytes) && i + 1 < |greedy| && a <= b <= c <= |json|
    requires json[a..b] == greedy[i] && json[b..c] == greedy[i + 1]
    ensures a < b < |json| && ByteLength(json[a..b + 1]) > maxBytes
  {
    var j := i + 1;
    assert Overflows(greedy, i, maxBytes);
    assert json[b] == json[b..c][0];
    assert json[a..b + 1] == greedy[i] + [greedy[j][0]];
  }

  // Greedy stays ahead: its first k parts reach at least as far as any k parts that fit.
  lemma {:induction false} GreedyStaysAhead(json: seq<CodePoint>, greedy: seq<seq<CodePoint>>,
                                            other: seq<seq<CodePoint>>, maxBytes: nat, k: nat)
    requires Greedy(greedy, maxBytes) && Concat(greedy) == json == Concat(other)
    requires forall i :: 0 <= i < |other| ==> Fits(other[i], maxBytes)
    requires k <= |greedy| && k <= |other|
    ensures End(greedy, k) >= End(other, k)
  {
    if k > 0 {
      var i := k - 1;
      GreedyStaysAhead(json, greedy, other, maxBytes, i);
      PartIsSlice(other, i);
      PartIsSlice(greedy, i);
      if k == |greedy| {
        EndsWithAll(greedy);
      } else if End(greedy, k) < End(other, k) {
        PartIsSlice(greedy, k);
        NextOverflows(json, greedy, maxBytes, i, End(greedy, i), End(greedy, k), End(greedy, k + 1));
        WiderIsLonger(json, End(greedy, i), End(greedy, k) + 1, End(other, i), End(other, k));
        assert false;
      }
    }
  }

  lemma EndsWithAll(texts: seq<seq<CodePoint>>)
    ensures End(texts, |texts|) == |Concat(texts)|
  {
    assert texts[..|texts|] == texts;
  }

  lemma {:induction false} FragmentationIsMinimal(parts: seq<Part>, json: seq<CodePoint>, maxBytes: nat,
        other: seq<seq<CodePoint>>)
    requires json != [] && IsFragmentation(parts, json, maxBytes)
    requires Concat(other) == json && forall i :: 0 <= i < |other| ==> Fits(other[i], maxBytes)
    ensures |parts| <= |other|
  {
    var greedy := Texts(parts);
    if |other| < |greedy| {
      GreedyStaysAhead(json, greedy, other, maxBytes, |other|);
      EndsWithAll(other);
      PartIsSlice(greedy, |other|);
    }
  }
}
