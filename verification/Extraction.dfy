/** Text extraction (browser-extraction-completeness-service.ts): merging the samples read
    while scrolling, and cutting text to a byte limit. */
module Extraction {
  import opened Text
  import opened JsonText

  // ---------------------------------------------------------------- UTF-8 length

  /** Bytes a lone code unit takes; a lone surrogate is written as U+FFFD. */
  function UnitBytes(c: CodeUnit): (n: nat)
    ensures 1 <= n <= 3
  {
    if c < 0x80 then 1 else if c < 0x800 then 2 else 3
  }

  function ByteLength(s: Str): (n: nat)
    ensures n >= |s|
  {
    if s == [] then 0
    else if |s| >= 2 && High(s[0]) && Low(s[1]) then 4 + ByteLength(s[2..])
    else UnitBytes(s[0]) + ByteLength(s[1..])
  }

  /** The bytes of one code point, by the table in section 3 of RFC 3629. */
  function CodePointBytes(c: int): seq<int> {
    if c <= 0x7F then [c]
    else if c <= 0x7FF then [0xC0 + c / 0x40, 0x80 + c % 0x40]
    else if c <= 0xFFFF then [0xE0 + c / 0x1000, 0x80 + c / 0x40 % 0x40, 0x80 + c % 0x40]
    else [0xF0 + c / 0x40000, 0x80 + c / 0x1000 % 0x40, 0x80 + c / 0x40 % 0x40, 0x80 + c % 0x40]
  }

  /** The code points of a text: a pair makes one, and a lone surrogate is replaced by U+FFFD. */
  function CodePoints(s: Str): seq<int> {
    if s == [] then []
    else if |s| >= 2 && 0xD800 <= s[0] <= 0xDBFF && 0xDC00 <= s[1] <= 0xDFFF then
      [0x10000 + (s[0] - 0xD800) * 0x400 + (s[1] - 0xDC00)] + CodePoints(s[2..])
    else [if 0xD800 <= s[0] <= 0xDFFF then 0xFFFD else s[0]] + CodePoints(s[1..])
  }

  function Utf8(points: seq<int>): seq<int> {
    if points == [] then [] else CodePointBytes(points[0]) + Utf8(points[1..])
  }

  /** The length is that of the text encoded in UTF-8. */
  lemma {:induction false} ByteLengthIsEncodedLength(s: Str)
    ensures ByteLength(s) == |Utf8(CodePoints(s))|
  {
    var points := CodePoints(s);
    if s == [] {
    } else if |s| >= 2 && 0xD800 <= s[0] <= 0xDBFF && 0xDC00 <= s[1] <= 0xDFFF {
      ByteLengthIsEncodedLength(s[2..]);
      assert points[1..] == CodePoints(s[2..]);
    } else {
      ByteLengthIsEncodedLength(s[1..]);
      assert points[1..] == CodePoints(s[1..]);
    }
  }

  predicate SingleByte(s: Str) {
    forall i | 0 <= i < |s| :: s[i] < 0x80
  }

  lemma {:induction false} SingleByteLength(s: Str)
    requires SingleByte(s)
    ensures ByteLength(s) == |s|
  {
    if s != [] {
      SingleByteLength(s[1..]);
    }
  }

  /** One more code unit always costs bytes: the second half of a pair takes its length from
      three to four. */
  lemma {:induction false} PrefixGrows(s: Str, m: nat)
    requires m < |s|
    ensures ByteLength(s[..m]) < ByteLength(s[..m + 1])
    ensures ByteLength(s[..m + 1]) <= ByteLength(s[..m]) + 3
    decreases |s|
  {
    if m == 0 {
      assert s[..1] == [s[0]] && s[..0] == [];
    } else if High(s[0]) && Low(s[1]) {
      if m == 1 {
        assert s[..1] == [s[0]] && s[..2] == [s[0], s[1]];
        assert [s[0]][1..] == [] && [s[0], s[1]][2..] == [];
      } else {
        assert s[..m][2..] == s[2..][..m - 2] && s[..m + 1][2..] == s[2..][..m - 1];
        PrefixGrows(s[2..], m - 2);
      }
    } else {
      assert s[..m][1..] == s[1..][..m - 1] && s[..m + 1][1..] == s[1..][..m];
      PrefixGrows(s[1..], m - 1);
    }
  }

  lemma {:induction false} PrefixMonotone(s: Str, m: nat, n: nat)
    requires m < n <= |s|
    ensures ByteLength(s[..m]) < ByteLength(s[..n])
    decreases n
  {
    PrefixGrows(s, n - 1);
    if m < n - 1 {
      PrefixMonotone(s, m, n - 1);
    }
  }

  // ---------------------------------------------------------------- cutting to a limit

  /** `r` is the longest prefix of `value` within the limit. */
  ghost predicate IsTruncation(value: Str, maxBytes: nat, r: Str) {
    && IsPrefix(r, value) && ByteLength(r) <= maxBytes
    && forall n | |r| < n <= |value| :: ByteLength(value[..n]) > maxBytes
  }

  method TruncateString(value: Str, maxBytes: nat) returns (r: Str)
    ensures IsTruncation(value, maxBytes, r)
  {
    if ByteLength(value) <= maxBytes {
      assert value[..|value|] == value;
      return value;
    }
    var low, high := 0, |value|;
    assert value[..|value|] == value;
    while low < high
      invariant 0 <= low <= high <= |value|
      invariant ByteLength(value[..low]) <= maxBytes
      invariant forall n | high < n <= |value| :: ByteLength(value[..n]) > maxBytes
    {
      var middle := (low + high + 1) / 2;
      if ByteLength(value[..middle]) <= maxBytes {
        low := middle;
      } else {
        forall n | middle <= n <= |value| ensures ByteLength(value[..n]) > maxBytes {
          if n > middle { PrefixMonotone(value, middle, n); }
        }
        high := middle - 1;
      }
    }
    return value[..low];
  }

  function Cut(value: Str, maxBytes: nat): Str {
    CutFrom(value, maxBytes, |value|)
  }

  function CutFrom(value: Str, maxBytes: nat, n: nat): Str
    requires n <= |value|
  {
    if n == 0 || ByteLength(value[..n]) <= maxBytes then value[..n] else CutFrom(value, maxBytes, n - 1)
  }

  lemma {:induction false} CutFromIsTruncation(value: Str, maxBytes: nat, n: nat)
    requires n <= |value| && forall k | n < k <= |value| :: ByteLength(value[..k]) > maxBytes
    ensures IsTruncation(value, maxBytes, CutFrom(value, maxBytes, n))
  {
    if n > 0 && ByteLength(value[..n]) > maxBytes {
      CutFromIsTruncation(value, maxBytes, n - 1);
    }
  }

  /** There is one longest prefix, so the binary search computes the same cut as trying
      every length from the top. */
  lemma TruncationUnique(value: Str, maxBytes: nat, r: Str)
    ensures IsTruncation(value, maxBytes, r) <==> r == Cut(value, maxBytes)
  {
    CutFromIsTruncation(value, maxBytes, |value|);
    var c := Cut(value, maxBytes);
    if IsTruncation(value, maxBytes, r) {
      assert r == value[..|r|] && c == value[..|c|];
    }
  }

  /** The bytes kept by a cut reach the limit exactly when some prefix fills it to the byte,
      which single-byte text always does. */
  lemma CutFillsExactlyWhen(value: Str, maxBytes: nat)
    requires ByteLength(value) > maxBytes
    ensures var r := Cut(value, maxBytes);
            && |r| < |value|
            && (ByteLength(r) >= maxBytes <==> exists n | 0 <= n <= |value| :: ByteLength(value[..n]) == maxBytes)
            && (SingleByte(value) ==> ByteLength(r) == maxBytes == |r|)
  {
    var r := Cut(value, maxBytes);
    TruncationUnique(value, maxBytes, r);
    assert value[..|value|] == value;
    assert r == value[..|r|];
    assert |r| < |value|;
    if n :| 0 <= n <= |value| && ByteLength(value[..n]) == maxBytes {
      if n < |r| { PrefixMonotone(value, n, |r|); }
    }
    if SingleByte(value) {
      SingleByteLength(r);
      SingleByteLength(value[..|r| + 1]);
    }
  }

  /** Dropping the first unit never adds bytes; from a pair it leaves three of four. */
  lemma TailFewerBytes(s: Str)
    requires s != []
    ensures ByteLength(s[1..]) <= ByteLength(s)
  {
    if |s| >= 2 && High(s[0]) && Low(s[1]) {
      assert s[1..][1..] == s[2..];
    }
  }

  /** A suffix never takes more bytes than the whole. */
  lemma {:induction false} SuffixMonotone(s: Str, k: nat)
    requires k <= |s|
    ensures ByteLength(s[k..]) <= ByteLength(s)
    decreases k
  {
    if k == 0 {
      assert s[0..] == s;
    } else {
      SuffixMonotone(s, k - 1);
      TailFewerBytes(s[k - 1..]);
      assert s[k - 1..][1..] == s[k..];
    }
  }

  /** Neither side of a merge takes more bytes than the merge. */
  lemma MergeHoldsBytes(current: Str, next: Str)
    ensures ByteLength(current) <= ByteLength(Merged(current, next)) && ByteLength(next) <= ByteLength(Merged(current, next))
  {
    MergeKeepsBoth(current, next);
    HoldsBytes(current, next, Merged(current, next));
  }

  lemma HoldsBytes(current: Str, next: Str, merged: Str)
    requires IsPrefix(current, merged) && IsSuffix(next, merged)
    ensures ByteLength(current) <= ByteLength(merged) && ByteLength(next) <= ByteLength(merged)
  {
    SuffixMonotone(merged, |merged| - |next|);
    assert merged[..|merged|] == merged;
    if |current| < |merged| { PrefixMonotone(merged, |current|, |merged|); }
  }

  /** Two texts are encoded apart unless a pair is split between them. */
  lemma {:induction false} BytesAppend(a: Str, b: Str)
    requires a == [] || b == [] || a[|a| - 1] < 0x80 || b[0] < 0x80
    ensures ByteLength(a + b) == ByteLength(a) + ByteLength(b)
    decreases |a|
  {
    if a == [] {
      assert a + b == b;
    } else if b == [] {
      assert a + b == a;
    } else if |a| >= 2 && High(a[0]) && Low(a[1]) {
      assert (a + b)[2..] == a[2..] + b;
      BytesAppend(a[2..], b);
    } else {
      assert (a + b)[1..] == a[1..] + b;
      assert |a| == 1 ==> (a + b)[1] == b[0];
      BytesAppend(a[1..], b);
    }
  }

  /** A line feed never falls inside a pair. */
  lemma {:induction false} BytesAtLineFeed(a: Str, b: Str)
    ensures ByteLength(a + [LF] + b) == ByteLength(a) + 1 + ByteLength(b)
    decreases |a|
  {
    var s := a + [LF] + b;
    if a == [] {
      assert s == [LF] + b && s[1..] == b;
    } else if |a| >= 2 && High(a[0]) && Low(a[1]) {
      assert s[2..] == a[2..] + [LF] + b;
      BytesAtLineFeed(a[2..], b);
    } else {
      assert s[1..] == a[1..] + [LF] + b;
      assert |a| == 1 ==> s[1] == LF;
      BytesAtLineFeed(a[1..], b);
    }
  }

  // ---------------------------------------------------------------- lines

  const MAX_OVERLAP := 200

  function Split(s: Str): (r: seq<Str>)
    ensures |r| > 0
  {
    if s == [] then [[]]
    else
      var rest := Split(s[1..]);
      if s[0] == LF then [[]] + rest else [[s[0]] + rest[0]] + rest[1..]
  }

  function Join(lines: seq<Str>): Str {
    if lines == [] then []
    else if |lines| == 1 then lines[0]
    else lines[0] + [LF] + Join(lines[1..])
  }

  lemma {:induction false} JoinSplit(s: Str)
    ensures Join(Split(s)) == s
  {
    if s != [] {
      JoinSplit(s[1..]);
      var rest := Split(s[1..]);
      if s[0] == LF {
        assert ([[]] + rest)[1..] == rest;
        assert [] + [LF] + s[1..] == s;
      } else {
        var r := [[s[0]] + rest[0]] + rest[1..];
        assert r[1..] == rest[1..];
        if |rest| == 1 {
          assert Join(r) == [s[0]] + rest[0];
        } else {
          assert [s[0]] + rest[0] + [LF] + Join(rest[1..]) == [s[0]] + (rest[0] + [LF] + Join(rest[1..]));
        }
        assert [s[0]] + s[1..] == s;
      }
    }
  }

  lemma {:induction false} JoinAppend(a: seq<Str>, b: seq<Str>)
    requires a != [] && b != []
    ensures Join(a + b) == Join(a) + [LF] + Join(b)
  {
    if |a| == 1 {
      assert (a + b)[1..] == b;
    } else {
      JoinAppend(a[1..], b);
      assert (a + b)[1..] == a[1..] + b;
      assert a[0] + [LF] + (Join(a[1..]) + [LF] + Join(b)) == a[0] + [LF] + Join(a[1..]) + [LF] + Join(b);
    }
  }

  // ---------------------------------------------------------------- merging samples

  predicate OverlapAt(current: seq<Str>, next: seq<Str>, k: nat) {
    k <= |current| && k <= |next| && current[|current| - k..] == next[..k]
  }

  /** The longest overlap of at most `k` lines. */
  function Overlap(current: seq<Str>, next: seq<Str>, k: nat): (r: nat)
    ensures r <= k && OverlapAt(current, next, r)
    ensures forall j | r < j <= k :: !OverlapAt(current, next, j)
  {
    if k == 0 || OverlapAt(current, next, k) then k else Overlap(current, next, k - 1)
  }

  function Min(a: nat, b: nat): nat {
    if a < b then a else b
  }

  function Merged(current: Str, next: Str): Str {
    if current == [] then next
    else if next == [] || current == next then current
    else if IsPrefix(current, next) then next
    else if IsSuffix(next, current) then current
    else
      var lines, more := Split(current), Split(next);
      var k := Overlap(lines, more, Min(Min(|lines|, |more|), MAX_OVERLAP));
      if k > 0 then Join(lines + more[k..]) else current + [LF] + next
  }

  /** Splitting leaves no line feed in a line; together with `JoinSplit` that determines it. */
  lemma {:induction false} SplitAtLineFeeds(s: Str)
    ensures forall line | line in Split(s) :: LF !in line
    ensures Join(Split(s)) == s
  {
    JoinSplit(s);
    if s != [] {
      SplitAtLineFeeds(s[1..]);
      var rest := Split(s[1..]);
      assert rest[0] in rest && forall line | line in rest[1..] :: line in rest;
    }
  }

  /** The last k lines of one are the first k of the other. */
  predicate SharesLines(lines: seq<Str>, more: seq<Str>, k: nat) {
    1 <= k <= 200 && k <= |lines| && k <= |more| && forall i | 0 <= i < k :: lines[|lines| - k + i] == more[i]
  }

  ghost predicate LongestShared(lines: seq<Str>, more: seq<Str>, k: nat) {
    SharesLines(lines, more, k) && forall j: nat | j > k :: !SharesLines(lines, more, j)
  }

  lemma SharesExactlyWhenOverlaps(lines: seq<Str>, more: seq<Str>, k: nat)
    requires 1 <= k <= 200
    ensures SharesLines(lines, more, k) <==> OverlapAt(lines, more, k)
  {
    if k <= |lines| && k <= |more| {
      var tail, head := lines[|lines| - k..], more[..k];
      assert forall i | 0 <= i < k :: tail[i] == lines[|lines| - k + i] && head[i] == more[i];
    }
  }

  lemma OverlapIsLongestShared(lines: seq<Str>, more: seq<Str>)
    ensures var r := Overlap(lines, more, Min(Min(|lines|, |more|), MAX_OVERLAP));
            if r > 0 then LongestShared(lines, more, r) else forall k: nat :: !SharesLines(lines, more, k)
  {
    forall k: nat | 1 <= k <= 200 ensures SharesLines(lines, more, k) <==> OverlapAt(lines, more, k) {
      SharesExactlyWhenOverlaps(lines, more, k);
    }
  }

  /** When neither text holds the other at its edge, they are joined at the longest run of at most
      200 lines they share there, and with a line feed if there is none. */
  lemma MergesAtLongestShared(current: Str, next: Str, k: nat)
    requires current != [] && next != [] && !IsPrefix(current, next) && !IsSuffix(next, current)
    ensures var lines, more := Split(current), Split(next);
            && (LongestShared(lines, more, k) ==> Merged(current, next) == Join(lines + more[k..]))
            && ((forall k: nat :: !SharesLines(lines, more, k)) ==> Merged(current, next) == current + [LF] + next)
  {
    var lines, more := Split(current), Split(next);
    OverlapIsLongestShared(lines, more);
    assert current != next;
  }

  method LinesMatch(currentLines: seq<Str>, nextLines: seq<Str>, overlap: nat) returns (matches: bool)
    requires overlap <= |currentLines| && overlap <= |nextLines|
    ensures matches <==> OverlapAt(currentLines, nextLines, overlap)
  {
    ghost var tail: seq<Str>, head: seq<Str> := currentLines[|currentLines| - overlap..], nextLines[..overlap];
    var index := 0;
    while index < overlap
      invariant 0 <= index <= overlap
      invariant forall i | 0 <= i < index :: tail[i] == head[i]
    {
      if currentLines[|currentLines| - overlap + index] != nextLines[index] {
        assert tail[index] != head[index];
        return false;
      }
      index := index + 1;
    }
    return true;
  }

  method MergeOrderedText(current: Str, next: Str) returns (r: Str)
    ensures r == Merged(current, next)
  {
    if current == [] { return next; }
    if next == [] || current == next { return current; }
    if IsPrefix(current, next) { return next; }
    if IsSuffix(next, current) { return current; }
    var currentLines, nextLines := Split(current), Split(next);
    var maxOverlap := Min(Min(|currentLines|, |nextLines|), MAX_OVERLAP);
    var overlap := maxOverlap;
    while overlap > 0
      invariant 0 <= overlap <= maxOverlap
      invariant Overlap(currentLines, nextLines, maxOverlap) == Overlap(currentLines, nextLines, overlap)
    {
      var matches := LinesMatch(currentLines, nextLines, overlap);
      if matches {
        return Join(currentLines + nextLines[overlap..]);
      }
      overlap := overlap - 1;
    }
    return current + [LF] + next;
  }

  /** Nothing of either side is lost: the text so far stays at the front, the new sample
      ends up at the back. */
  lemma MergeKeepsBoth(current: Str, next: Str)
    ensures IsPrefix(current, Merged(current, next)) && IsSuffix(next, Merged(current, next))
  {
    if current == [] || next == [] || current == next || IsPrefix(current, next) || IsSuffix(next, current) {
    } else {
      var lines, more := Split(current), Split(next);
      JoinSplit(current);
      JoinSplit(next);
      var k := Overlap(lines, more, Min(Min(|lines|, |more|), MAX_OVERLAP));
      if k > 0 {
        MergedLines(lines, more, k);
      } else {
        assert (current + [LF] + next)[..|current|] == current;
      }
    }
  }

  lemma MergedLines(lines: seq<Str>, more: seq<Str>, k: nat)
    requires 0 < k && OverlapAt(lines, more, k)
    ensures IsPrefix(Join(lines), Join(lines + more[k..])) && IsSuffix(Join(more), Join(lines + more[k..]))
  {
    var all := lines + more[k..];
    if k < |more| {
      JoinAppend(lines, more[k..]);
    } else {
      assert all == lines;
    }
    var before := lines[..|lines| - k];
    assert lines == before + lines[|lines| - k..];
    assert more == more[..k] + more[k..];
    assert all == before + more;
    if before != [] {
      JoinAppend(before, more);
    } else {
      assert all == more;
    }
  }

  /** The page text after a list of samples. */
  function MergedAll(samples: seq<Str>): Str
    requires samples != []
  {
    if |samples| == 1 then samples[0] else Merged(MergedAll(samples[..|samples| - 1]), samples[|samples| - 1])
  }

  lemma WithinPrefix(p: Str, s: Str, t: Str)
    requires Within(p, s) && IsPrefix(s, t)
    ensures Within(p, t)
  {
    var before, after :| s == before + p + after;
    assert t == before + p + (after + t[|s|..]);
  }

  lemma WithinItself(s: Str)
    ensures Within(s, s)
  {
    assert s == [] + s + [];
  }

  lemma WithinSuffix(p: Str, t: Str)
    requires IsSuffix(p, t)
    ensures Within(p, t)
  {
    assert t == t[..|t| - |p|] + p + [];
  }

  /** A merge holds what the text so far held, and the new sample. */
  lemma MergeHolds(p: Str, before: Str, sample: Str, isSample: bool)
    requires if isSample then p == sample else Within(p, before)
    ensures Within(p, Merged(before, sample))
  {
    MergeKeepsBoth(before, sample);
    if isSample {
      WithinSuffix(p, Merged(before, sample));
    } else {
      WithinPrefix(p, before, Merged(before, sample));
    }
  }

  /** Every sample read while scrolling is a contiguous part of the page text. */
  lemma {:induction false} SampleIsContiguous(samples: seq<Str>, i: nat)
    requires i < |samples|
    ensures Within(samples[i], MergedAll(samples))
    decreases |samples|
  {
    var n := |samples|;
    if n == 1 {
      WithinItself(samples[0]);
    } else {
      if i < n - 1 { SampleIsContiguous(samples[..n - 1], i); }
      MergeHolds(samples[i], MergedAll(samples[..n - 1]), samples[n - 1], i == n - 1);
    }
  }
}
