// Clipping a long line around a search match: two binary searches over UTF-16 code units for the
// widest window whose UTF-8 form fits.
module LineClip {
  import opened Unicode

  const MAX_BYTES := 4096

  // ----- UTF-8 length, read off the code points -----

  // A surrogate pair is one code point; an unpaired surrogate stands for itself.
  function CodePoints(t: Text): seq<CodePoint> {
    if t == [] then []
    else if |t| >= 2 && High(t[0]) && Low(t[1]) then
      [(0x1_0000 + (t[0] as int - 0xD800) * 0x400 + (t[1] as int - 0xDC00)) as CodePoint] + CodePoints(t[2..])
    else [t[0] as CodePoint] + CodePoints(t[1..])
  }

  function Octets(points: seq<CodePoint>): nat {
    if points == [] then 0 else Utf8Length(points[0]) + Octets(points[1..])
  }

  // ----- The same length, unit by unit -----

  function Width(u: CodeUnit): nat {
    if u < 0x80 then 1 else if u < 0x800 then 2 else 3
  }

  // What putting `u` before `t` adds: completing a pair adds one byte only.
  function Gain(u: CodeUnit, t: Text): nat {
    if t != [] && High(u) && Low(t[0]) then 1 else Width(u)
  }

  function ByteLength(t: Text): nat {
    if t == [] then 0 else Gain(t[0], t[1..]) + ByteLength(t[1..])
  }

  lemma {:induction false} ByteLengthIsUtf8(t: Text)
    ensures ByteLength(t) == Octets(CodePoints(t))
    decreases |t|
  {
    if t == [] {
    } else if |t| >= 2 && High(t[0]) && Low(t[1]) {
      assert t[1..][1..] == t[2..];
      ByteLengthIsUtf8(t[2..]);
    } else {
      ByteLengthIsUtf8(t[1..]);
    }
  }

  // ----- Growing a text at either end makes it longer in bytes -----

  lemma {:induction false} GrowRight(t: Text, u: CodeUnit)
    ensures ByteLength(t + [u])
         == ByteLength(t) + if t != [] && High(t[|t| - 1]) && Low(u) then 1 else Width(u)
  {
    if t == [] {
      assert [u][1..] == [];
    } else {
      GrowRight(t[1..], u);
      assert (t + [u])[1..] == t[1..] + [u];
    }
  }

  // String.prototype.slice for indices that are not negative.
  function Slice(line: Text, from: nat, to: nat): Text {
    var end := if to < |line| then to else |line|;
    if from < end then line[from..end] else []
  }

  lemma SliceGrowsLeft(line: Text, from: nat, to: nat)
    ensures ByteLength(Slice(line, from + 1, to)) <= ByteLength(Slice(line, from, to))
    ensures from < to && from < |line| ==> ByteLength(Slice(line, from + 1, to)) < ByteLength(Slice(line, from, to))
  {
    if from < to && from < |line| {
      assert Slice(line, from, to)[1..] == Slice(line, from + 1, to);
    }
  }

  lemma SliceGrowsRight(line: Text, from: nat, to: nat)
    ensures ByteLength(Slice(line, from, to)) <= ByteLength(Slice(line, from, to + 1))
    ensures from <= to < |line| ==> ByteLength(Slice(line, from, to)) < ByteLength(Slice(line, from, to + 1))
  {
    if from <= to < |line| {
      assert Slice(line, from, to + 1) == Slice(line, from, to) + [line[to]];
      GrowRight(Slice(line, from, to), line[to]);
    }
  }

  lemma {:induction false} SliceMonotoneLeft(line: Text, from: nat, from': nat, to: nat)
    requires from <= from'
    ensures ByteLength(Slice(line, from', to)) <= ByteLength(Slice(line, from, to))
    decreases from' - from
  {
    if from < from' {
      SliceMonotoneLeft(line, from + 1, from', to);
      SliceGrowsLeft(line, from, to);
    }
  }

  lemma {:induction false} SliceMonotone(line: Text, from: nat, from': nat, end: nat, end': nat)
    requires from <= from' && end' <= end
    ensures ByteLength(Slice(line, from', end')) <= ByteLength(Slice(line, from, end))
    decreases end
  {
    if end' < end {
      SliceMonotone(line, from, from', end - 1, end');
      SliceGrowsRight(line, from, end - 1);
    } else {
      SliceMonotoneLeft(line, from, from', end);
    }
  }

  predicate Fits(line: Text, from: nat, to: nat) {
    ByteLength(Slice(line, from, to)) <= MAX_BYTES
  }

  // ----- Clipping -----

  function MatchEnd(line: Text, matchAt: nat, matchLength: nat): nat {
    if matchAt + matchLength < |line| then matchAt + matchLength else |line|
  }

  // `start` is the least index from which the text up to the end of the match fits, or that of the
  // match; `end` is then the greatest index that still fits, or the end of the match.
  ghost predicate IsWindow(line: Text, matchAt: nat, matchLength: nat, start: nat, end: nat) {
    var matchEnd := MatchEnd(line, matchAt, matchLength);
    && start <= matchAt && matchEnd <= end <= |line|
    && (start < matchAt ==> Fits(line, start, matchEnd))
    && (start > 0 ==> !Fits(line, start - 1, matchEnd))
    && (end > matchEnd ==> Fits(line, start, end))
    && (end < |line| ==> !Fits(line, start, end + 1))
  }

  method ClipLineText(line: Text, matchAt: nat, matchLength: nat) returns (lineText: Text, matchStart: nat)
    ensures exists start, end :: IsWindow(line, matchAt, matchLength, start, end)
                                 && lineText == Slice(line, start, end)
                                 && matchStart == ByteLength(Slice(line, start, matchAt))
  {
    var matchEnd := MatchEnd(line, matchAt, matchLength);
    var start := WindowStart(line, matchAt, matchEnd);
    var end := WindowEnd(line, start, matchEnd);
    assert IsWindow(line, matchAt, matchLength, start, end);
    lineText := Slice(line, start, end);
    matchStart := ByteLength(Slice(line, start, matchAt));
  }

  method WindowStart(line: Text, matchAt: nat, matchEnd: nat) returns (low: nat)
    ensures low <= matchAt && (low < matchAt ==> Fits(line, low, matchEnd))
    ensures low > 0 ==> !Fits(line, low - 1, matchEnd)
  {
    low := 0;
    var high := matchAt;
    while low < high
      invariant 0 <= low <= high <= matchAt
      invariant low > 0 ==> !Fits(line, low - 1, matchEnd)
      invariant high < matchAt ==> Fits(line, high, matchEnd)
    {
      var middle := (low + high) / 2;
      if ByteLength(Slice(line, middle, matchEnd)) <= MAX_BYTES { high := middle; } else { low := middle + 1; }
    }
  }

  method WindowEnd(line: Text, start: nat, matchEnd: nat) returns (low: nat)
    requires matchEnd <= |line|
    ensures matchEnd <= low <= |line| && (low > matchEnd ==> Fits(line, start, low))
    ensures low < |line| ==> !Fits(line, start, low + 1)
  {
    low := matchEnd;
    var high := |line|;
    while low < high
      invariant matchEnd <= low <= high <= |line|
      invariant low > matchEnd ==> Fits(line, start, low)
      invariant high < |line| ==> !Fits(line, start, high + 1)
    {
      var middle := (low + high + 1) / 2;
      if ByteLength(Slice(line, start, middle)) <= MAX_BYTES { low := middle; } else { high := middle - 1; }
    }
  }

  // ----- What the window is worth -----

  // The window fits exactly when the match does; when the match does not, it is the whole window.
  lemma WindowFitsExactly(line: Text, matchAt: nat, matchLength: nat, start: nat, end: nat)
    requires IsWindow(line, matchAt, matchLength, start, end)
    ensures var matchEnd := MatchEnd(line, matchAt, matchLength);
            && (Fits(line, start, end) <==> Fits(line, matchAt, matchEnd))
            && (!Fits(line, matchAt, matchEnd) ==> start == matchAt && end == matchEnd)
  {
    var matchEnd := MatchEnd(line, matchAt, matchLength);
    if !Fits(line, matchAt, matchEnd) {
      SliceMonotone(line, start, matchAt, matchEnd, matchEnd);
      SliceMonotone(line, start, matchAt, end, matchEnd);
    }
  }

  // A window cannot take in one more code unit on either side and still fit.
  lemma WindowIsWidest(line: Text, matchAt: nat, matchLength: nat, start: nat, end: nat, from: nat, to: nat)
    requires IsWindow(line, matchAt, matchLength, start, end)
    requires from <= start && end <= to <= |line| && (from, to) != (start, end)
    ensures !Fits(line, from, to)
  {
    var matchEnd := MatchEnd(line, matchAt, matchLength);
    if from < start {
      SliceMonotone(line, from, start - 1, to, matchEnd);
    } else {
      SliceMonotone(line, from, start, to, end + 1);
    }
  }

  // There is one window, so the text returned is a function of the line and the match.
  lemma WindowIsUnique(line: Text, matchAt: nat, matchLength: nat, start: nat, end: nat, start': nat, end': nat)
    requires IsWindow(line, matchAt, matchLength, start, end) && IsWindow(line, matchAt, matchLength, start', end')
    ensures start == start' && end == end'
  {
    var matchEnd := MatchEnd(line, matchAt, matchLength);
    if start < start' {
      SliceMonotone(line, start, start' - 1, matchEnd, matchEnd);
    } else if start' < start {
      SliceMonotone(line, start', start - 1, matchEnd, matchEnd);
    } else if end < end' {
      SliceMonotone(line, start, start, end', end + 1);
    } else if end' < end {
      SliceMonotone(line, start, start, end, end' + 1);
    }
  }

  lemma SliceSplits(line: Text, from: nat, cut: nat, to: nat)
    requires from <= cut <= to <= |line|
    ensures Slice(line, from, to) == Slice(line, from, cut) + Slice(line, cut, to)
  {
    assert line[from..to] == line[from..cut] + line[cut..to];
  }

  // The window is what stands before the match, the match, and what stands after it.
  lemma {:induction false} WindowHoldsMatch(line: Text, matchAt: nat, matchLength: nat, start: nat, end: nat)
    requires IsWindow(line, matchAt, matchLength, start, end) && matchAt <= |line|
    ensures var matchEnd := MatchEnd(line, matchAt, matchLength);
            Slice(line, start, end)
            == Slice(line, start, matchAt) + (Slice(line, matchAt, matchEnd) + Slice(line, matchEnd, end))
  {
    SliceSplits(line, start, matchAt, end);
    SliceSplits(line, matchAt, MatchEnd(line, matchAt, matchLength), end);
  }

  // ----- The byte offset of the match -----

  lemma {:induction false} JoinLength(a: Text, b: Text)
    ensures ByteLength(a + b) + (if a != [] && b != [] && High(a[|a| - 1]) && Low(b[0]) then 2 else 0)
         == ByteLength(a) + ByteLength(b)
  {
    if a == [] {
      assert a + b == b;
    } else {
      JoinLength(a[1..], b);
      assert (a + b)[1..] == a[1..] + b;
    }
  }

  lemma CutLength(line: Text, from: nat, cut: nat, to: nat)
    requires from <= cut <= to <= |line|
    ensures ByteLength(Slice(line, from, cut)) + ByteLength(Slice(line, cut, to))
         == ByteLength(Slice(line, from, to))
            + (if from < cut < to && High(line[cut - 1]) && Low(line[cut]) then 2 else 0)
  {
    var a, b := Slice(line, from, cut), Slice(line, cut, to);
    SliceSplits(line, from, cut, to);
    JoinLength(a, b);
  }

  // The offset returned is that of the match in the UTF-8 form of the text if and only if the match
  // does not begin inside a surrogate pair that the window holds whole.
  lemma MatchStartIsOffsetExactly(line: Text, matchAt: nat, matchLength: nat, start: nat, end: nat)
    requires IsWindow(line, matchAt, matchLength, start, end) && matchAt <= |line|
    ensures ByteLength(Slice(line, start, matchAt)) + ByteLength(Slice(line, matchAt, end))
            == ByteLength(Slice(line, start, end))
       <==> !(start < matchAt < end && High(line[matchAt - 1]) && Low(line[matchAt]))
  {
    CutLength(line, start, matchAt, end);
  }

  // A capital I with a dot above, then an emoji. Lower case has one code unit more for the letter, so
  // a search for the emoji in lower case finds it at 2, which in the line is inside its pair.
  const DOTTED_LINE: Text := [0x130, 0xD83D, 0xDE00]

  lemma DottedLengths()
    ensures ByteLength([0x130, 0xD83D]) == 5 && ByteLength([0xDE00]) == 3 && ByteLength(DOTTED_LINE) == 6
  {
    var letter: Text, high: Text, low: Text, pair: Text, before: Text :=
      [0x130], [0xD83D], [0xDE00], [0xD83D, 0xDE00], [0x130, 0xD83D];
    assert low[1..] == [] && high[1..] == [] && pair[1..] == low && before[1..] == high;
    assert DOTTED_LINE[1..] == pair;
  }

  lemma DottedSlices()
    ensures Slice(DOTTED_LINE, 0, 3) == DOTTED_LINE
    ensures Slice(DOTTED_LINE, 0, 2) == [0x130, 0xD83D] && Slice(DOTTED_LINE, 2, 3) == [0xDE00]
  {
  }

  // The window of that line is the whole of it, six bytes, and the offset answered for the match is 5:
  // what stands before the match and the match itself are taken for eight.
  lemma MatchStartWitness(start: nat, end: nat)
    ensures IsWindow(DOTTED_LINE, 2, 2, start, end) <==> start == 0 && end == 3
    ensures Slice(DOTTED_LINE, 0, 3) == DOTTED_LINE && ByteLength(DOTTED_LINE) == 6
    ensures ByteLength(Slice(DOTTED_LINE, 0, 2)) == 5 && ByteLength(Slice(DOTTED_LINE, 2, 3)) == 3
  {
    DottedLengths();
    DottedSlices();
    if IsWindow(DOTTED_LINE, 2, 2, start, end) {
      WindowIsUnique(DOTTED_LINE, 2, 2, start, end, 0, 3);
    }
  }
}
