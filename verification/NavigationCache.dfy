/** The navigation cache (navigation-cache.ts) against the log of everything recorded in it. */
module NavigationCache {
  import opened Text
  import opened Rows
  import JsonText

  datatype Entry = Entry(
    url: Str,
    purpose: Str,
    title: Option<Str>,
    firstUsedAt: int,
    lastUsedAt: int,
    lastClosedAt: Option<int>,
    useCount: nat)

  /** A parsed address; parsing itself is a parameter. */
  datatype Address = Address(web: bool, username: Str, password: Str, search: Str, hash: Str, href: Str)

  datatype Input = Input(url: Option<Str>, requestedUrl: Option<Str>, purpose: Str, title: Option<Str>)

  datatype CacheError = InvalidUrl

  // ---------------------------------------------------------------- keys

  /** What is left of a text after encoding it in UTF-8: a lone surrogate becomes U+FFFD. */
  function Encodable(s: Str): Str {
    if s == [] then []
    else if |s| >= 2 && JsonText.High(s[0]) && JsonText.Low(s[1]) then [s[0], s[1]] + Encodable(s[2..])
    else [if JsonText.High(s[0]) || JsonText.Low(s[0]) then 0xFFFD else s[0]] + Encodable(s[1..])
  }

  /** Every lone surrogate is hashed as U+FFFD is, so purposes that differ in one share a key. */
  lemma LoneSurrogatesCollide(c: CodeUnit, url: Str)
    requires 0xD800 <= c <= 0xDFFF
    ensures KeyText(url, [c]) == KeyText(url, [0xFFFD])
  {
    var a, b := [c] + [LF] + url, [0xFFFD] + [LF] + url;
    assert a[1..] == [LF] + url == b[1..];
    assert a[1] == LF && b[1] == LF;
  }

  /** The text whose UTF-8 bytes are hashed to the key. The hash is taken to be injective. */
  function KeyText(url: Str, purpose: Str): Str {
    Encodable(purpose + [LF] + url)
  }

  /** ASCII without line feeds, as every serialized address is. */
  predicate PlainUrl(url: Str) {
    forall c | c in url :: c < 0x80 && c != LF
  }

  function Key(e: Entry): Str {
    KeyText(e.url, e.purpose)
  }

  /** The same address, and purposes that encode alike. */
  predicate Same(a: Entry, b: Entry) {
    a.url == b.url && Encodable(a.purpose) == Encodable(b.purpose)
  }

  lemma {:induction false} PlainIsEncodable(url: Str)
    requires PlainUrl(url)
    ensures Encodable(url) == url
  {
    if url != [] {
      assert url[0] in url && forall c | c in url[1..] :: c in url;
      PlainIsEncodable(url[1..]);
    }
  }

  lemma KeyTail(purpose: Str, url: Str, n: nat)
    requires n <= |purpose|
    ensures (purpose + [LF] + url)[n..] == purpose[n..] + [LF] + url
  {
  }

  lemma PrefixedKey(a: Str, b: Str, url: Str)
    ensures a + (b + [LF] + url) == (a + b) + [LF] + url
  {
  }

  /** A line feed is no half of a pair. */
  lemma {:induction false} EncodedKey(purpose: Str, url: Str)
    requires PlainUrl(url)
    ensures KeyText(url, purpose) == Encodable(purpose) + [LF] + url
    decreases |purpose|
  {
    var text := purpose + [LF] + url;
    if purpose == [] {
      assert text == [LF] + url && text[1..] == url;
      PlainIsEncodable(url);
    } else if |purpose| >= 2 && JsonText.High(purpose[0]) && JsonText.Low(purpose[1]) {
      EncodedKey(purpose[2..], url);
      KeyTail(purpose, url, 2);
      PrefixedKey([purpose[0], purpose[1]], Encodable(purpose[2..]), url);
    } else {
      EncodedKey(purpose[1..], url);
      KeyTail(purpose, url, 1);
      assert |purpose| == 1 ==> text[1] == LF;
      PrefixedKey([if JsonText.High(purpose[0]) || JsonText.Low(purpose[0]) then 0xFFFD else purpose[0]], Encodable(purpose[1..]), url);
    }
  }

  /** No line feed in an address, so the last one in the text ends the purpose: two keys are the
      same exactly for the same address and purposes that encode alike. */
  lemma KeyIsInjective(a: Entry, b: Entry)
    requires PlainUrl(a.url) && PlainUrl(b.url)
    ensures Key(a) == Key(b) <==> Same(a, b)
  {
    EncodedKey(a.purpose, a.url);
    EncodedKey(b.purpose, b.url);
    LastLineFeedSplits(Encodable(a.purpose), a.url, Encodable(b.purpose), b.url);
  }

  lemma LastLineFeedSplits(p: Str, u: Str, q: Str, v: Str)
    requires LF !in u && LF !in v
    ensures p + [LF] + u == q + [LF] + v <==> p == q && u == v
  {
    var k, m := p + [LF] + u, q + [LF] + v;
    assert k[|p|] == LF && forall i | |p| < i < |k| :: k[i] != LF;
    assert m[|q|] == LF && forall i | |q| < i < |m| :: m[i] != LF;
    if k == m {
      assert |p| == |q|;
      assert p == k[..|p|] && q == m[..|q|];
      assert u == k[|p| + 1..] && v == m[|q| + 1..];
    }
  }

  // ---------------------------------------------------------------- what the log says is recent

  predicate AllBefore(l: seq<Entry>, time: int) {
    forall e | e in l :: e.lastUsedAt < time
  }

  predicate NoneLike(l: seq<Entry>, x: Entry) {
    forall e | e in l :: !Same(e, x)
  }

  /** Later use first, all at different times. */
  predicate Descending(l: seq<Entry>) {
    l == [] || (Descending(l[1..]) && AllBefore(l[1..], l[0].lastUsedAt))
  }

  predicate OneEach(l: seq<Entry>) {
    l == [] || (OneEach(l[1..]) && NoneLike(l[1..], l[0]))
  }

  function Without(l: seq<Entry>, x: Entry): (r: seq<Entry>)
    ensures |r| <= |l|
    ensures forall e :: e in r <==> e in l && !Same(e, x)
  {
    if l == [] then []
    else if Same(l[0], x) then Without(l[1..], x)
    else [l[0]] + Without(l[1..], x)
  }

  /** The last record of every address and purpose, most recent first. */
  function MostRecent(log: seq<Entry>): seq<Entry> {
    if log == [] then [] else [Last(log)] + Without(MostRecent(Front(log)), Last(log))
  }

  /** The first `max` of a list, as far as they are not older than `threshold`. */
  function Kept(l: seq<Entry>, max: nat, threshold: int): (r: seq<Entry>)
    ensures |r| <= max && |r| <= |l|
  {
    if l == [] || max == 0 || l[0].lastUsedAt < threshold then [] else [l[0]] + Kept(l[1..], max - 1, threshold)
  }

  lemma {:induction false} KeptIsPrefix(l: seq<Entry>, max: nat, threshold: int)
    ensures IsPrefix(Kept(l, max, threshold), l)
  {
    if l != [] && max > 0 && l[0].lastUsedAt >= threshold { KeptIsPrefix(l[1..], max - 1, threshold); }
  }

  predicate Increasing(log: seq<Entry>) {
    log == [] || (Increasing(Front(log)) && AllBefore(Front(log), Last(log).lastUsedAt))
  }

  lemma {:induction false} WithoutAbsent(l: seq<Entry>, x: Entry)
    requires NoneLike(l, x)
    ensures Without(l, x) == l
  {
    if l != [] {
      assert l[0] in l;
      WithoutAbsent(l[1..], x);
    }
  }

  lemma {:induction false} WithoutKeeps(l: seq<Entry>, x: Entry)
    requires Descending(l) && OneEach(l)
    ensures Descending(Without(l, x)) && OneEach(Without(l, x)) && |Without(l, x)| >= |l| - 1
  {
    if l != [] {
      WithoutKeeps(l[1..], x);
      var r := Without(l[1..], x);
      if Same(l[0], x) {
        WithoutAbsent(l[1..], x);
      } else {
        assert ([l[0]] + r)[1..] == r;
      }
    }
  }

  lemma {:induction false} MostRecentInLog(log: seq<Entry>)
    ensures forall e | e in MostRecent(log) :: e in log
  {
    if log != [] {
      FrontLast(log);
      MostRecentInLog(Front(log));
    }
  }

  lemma {:induction false} MostRecentDescends(log: seq<Entry>)
    requires Increasing(log)
    ensures Descending(MostRecent(log)) && OneEach(MostRecent(log))
  {
    if log != [] {
      var rest := MostRecent(Front(log));
      MostRecentDescends(Front(log));
      MostRecentInLog(Front(log));
      WithoutKeeps(rest, Last(log));
      assert MostRecent(log)[1..] == Without(rest, Last(log));
    }
  }

  /** What the list means: each address and purpose of the log once, with its last record, in
      order of last use. */
  lemma {:induction false} MostRecentIsRight(log: seq<Entry>, x: Entry)
    requires Increasing(log) && x in log
    ensures exists e | e in MostRecent(log) :: Same(e, x) && x.lastUsedAt <= e.lastUsedAt
  {
    FrontLast(log);
    if Same(Last(log), x) {
      assert MostRecent(log)[0] == Last(log);
    } else {
      MostRecentIsRight(Front(log), x);
      var e :| e in MostRecent(Front(log)) && Same(e, x) && x.lastUsedAt <= e.lastUsedAt;
      assert e in Without(MostRecent(Front(log)), Last(log));
    }
  }

  // ---------------------------------------------------------------- keeping the recent ones

  /** Cutting off entries that would be dropped anyway changes nothing. */
  lemma {:induction false} KeptIgnoresTail(p: seq<Entry>, rest: seq<Entry>, max: nat, threshold: int)
    requires |p| >= max || AllBefore(rest, threshold)
    ensures Kept(p + rest, max, threshold) == Kept(p, max, threshold)
  {
    if p == [] {
      assert p + rest == rest;
      assert rest != [] ==> rest[0] in rest;
    } else {
      assert (p + rest)[1..] == p[1..] + rest;
      if max > 0 { KeptIgnoresTail(p[1..], rest, max - 1, threshold); }
    }
  }

  lemma {:induction false} KeptEnds(l: seq<Entry>, max: nat, threshold: int)
    requires Descending(l)
    ensures var p := Kept(l, max, threshold);
            |p| == max || AllBefore(l[|p|..], threshold)
  {
    if l != [] && max > 0 && l[0].lastUsedAt >= threshold {
      KeptEnds(l[1..], max - 1, threshold);
      var p := Kept(l, max, threshold);
      assert l[|p|..] == l[1..][|p| - 1..];
    }
  }

  lemma KeptTwice(l: seq<Entry>, max: nat, earlier: int, later: int)
    requires Descending(l) && earlier <= later
    ensures Kept(Kept(l, max, earlier), max, later) == Kept(l, max, later)
  {
    var p := Kept(l, max, earlier);
    KeptEnds(l, max, earlier);
    KeptIsPrefix(l, max, earlier);
    assert l == p + l[|p|..];
    KeptIgnoresTail(p, l[|p|..], max, later);
  }

  lemma {:induction false} WithoutAppend(a: seq<Entry>, b: seq<Entry>, x: Entry)
    ensures Without(a + b, x) == Without(a, x) + Without(b, x)
  {
    if a == [] {
      assert a + b == b;
    } else {
      assert (a + b)[0] == a[0] && (a + b)[1..] == a[1..] + b;
      WithoutAppend(a[1..], b, x);
      assert !Same(a[0], x) ==> Without(a + b, x) == [a[0]] + Without(a[1..] + b, x);
      Prepend(a[0], Without(a[1..], x), Without(b, x));
    }
  }

  /** Recording on top of what was kept gives what recording on top of everything gives. */
  lemma KeptAfterRecord(l: seq<Entry>, e: Entry, max: nat, earlier: int, later: int)
    requires Descending(l) && OneEach(l) && earlier <= later
    ensures Kept([e] + Without(Kept(l, max, earlier), e), max, later) == Kept([e] + Without(l, e), max, later)
  {
    var p := Kept(l, max, earlier);
    KeptEnds(l, max, earlier);
    KeptIsPrefix(l, max, earlier);
    assert l == p + l[|p|..];
    PrefixKeeps(l, |p|);
    RecordOnPrefix(p, l[|p|..], e, max, later);
  }

  lemma RecordOnPrefix(p: seq<Entry>, rest: seq<Entry>, e: Entry, max: nat, later: int)
    requires Descending(p) && OneEach(p) && (|p| == max || AllBefore(rest, later))
    ensures Kept([e] + Without(p, e), max, later) == Kept([e] + Without(p + rest, e), max, later)
  {
    WithoutAppend(p, rest, e);
    WithoutKeeps(p, e);
    var q, tail := [e] + Without(p, e), Without(rest, e);
    KeptIgnoresTail(q, tail, max, later);
    Prepend(e, Without(p, e), tail);
  }

  lemma Prepend(e: Entry, a: seq<Entry>, b: seq<Entry>)
    ensures [e] + a + b == [e] + (a + b)
  {
  }

  lemma {:induction false} PrefixKeeps(l: seq<Entry>, n: nat)
    requires n <= |l| && Descending(l) && OneEach(l)
    ensures Descending(l[..n]) && OneEach(l[..n])
  {
    if n > 0 {
      PrefixKeeps(l[1..], n - 1);
      assert l[..n][1..] == l[1..][..n - 1];
    }
  }

  // ---------------------------------------------------------------- sorting

  function Insert(x: Entry, sorted: seq<Entry>): (r: seq<Entry>)
    ensures |r| == |sorted| + 1
  {
    if sorted == [] || sorted[0].lastUsedAt <= x.lastUsedAt then [x] + sorted else [sorted[0]] + Insert(x, sorted[1..])
  }

  /** The stable sort by last use, latest first. */
  function SortByUse(s: seq<Entry>): (r: seq<Entry>)
    ensures |r| == |s|
  {
    if s == [] then [] else Insert(s[0], SortByUse(s[1..]))
  }

  lemma {:induction false} InsertMembers(x: Entry, sorted: seq<Entry>)
    ensures forall y :: y in Insert(x, sorted) <==> y == x || y in sorted
  {
    if sorted != [] {
      assert sorted == [sorted[0]] + sorted[1..];
      InsertMembers(x, sorted[1..]);
    }
  }

  lemma {:induction false} SortMembers(s: seq<Entry>)
    ensures forall y :: y in SortByUse(s) <==> y in s
  {
    if s != [] {
      assert s == [s[0]] + s[1..];
      SortMembers(s[1..]);
      InsertMembers(s[0], SortByUse(s[1..]));
    }
  }

  predicate AllOther(l: seq<Entry>, time: int) {
    forall e | e in l :: e.lastUsedAt != time
  }

  predicate DifferentTimes(s: seq<Entry>) {
    s == [] || (DifferentTimes(s[1..]) && AllOther(s[1..], s[0].lastUsedAt))
  }

  lemma {:induction false} InsertDescends(x: Entry, sorted: seq<Entry>)
    requires Descending(sorted) && AllOther(sorted, x.lastUsedAt)
    ensures Descending(Insert(x, sorted))
  {
    if sorted == [] {
    } else if sorted[0].lastUsedAt <= x.lastUsedAt {
      assert sorted[0] in sorted;
      assert ([x] + sorted)[1..] == sorted;
    } else {
      InsertDescends(x, sorted[1..]);
      InsertMembers(x, sorted[1..]);
      assert Insert(x, sorted)[1..] == Insert(x, sorted[1..]);
    }
  }

  lemma {:induction false} SortDescends(s: seq<Entry>)
    requires DifferentTimes(s)
    ensures Descending(SortByUse(s))
  {
    if s != [] {
      SortDescends(s[1..]);
      SortMembers(s[1..]);
      InsertDescends(s[0], SortByUse(s[1..]));
    }
  }

  /** A descending list is determined by its elements. */
  lemma {:induction false} DescendingUnique(a: seq<Entry>, b: seq<Entry>)
    requires Descending(a) && Descending(b) && forall x :: x in a <==> x in b
    ensures a == b
  {
    HeadIn(a);
    HeadIn(b);
    if a != [] {
      assert a[0] == b[0];
      forall x ensures x in a[1..] <==> x in b[1..] {
        TailOf(a, x);
        TailOf(b, x);
      }
      DescendingUnique(a[1..], b[1..]);
    }
  }

  lemma HeadIn(l: seq<Entry>)
    ensures l == [] || l[0] in l
  {
  }

  lemma TailOf(l: seq<Entry>, x: Entry)
    requires l != [] && Descending(l)
    ensures x in l[1..] <==> x in l && x != l[0]
  {
    assert l == [l[0]] + l[1..];
  }

  lemma {:induction false} SortOneEach(s: seq<Entry>)
    requires OneEach(s)
    ensures OneEach(SortByUse(s))
  {
    if s != [] {
      SortOneEach(s[1..]);
      SortMembers(s[1..]);
      InsertOneEach(s[0], SortByUse(s[1..]));
    }
  }

  lemma {:induction false} InsertOneEach(x: Entry, sorted: seq<Entry>)
    requires OneEach(sorted) && NoneLike(sorted, x)
    ensures OneEach(Insert(x, sorted))
  {
    if sorted == [] || sorted[0].lastUsedAt <= x.lastUsedAt {
      assert ([x] + sorted)[1..] == sorted;
    } else {
      InsertOneEach(x, sorted[1..]);
      InsertMembers(x, sorted[1..]);
      assert sorted[0] in sorted;
      assert Insert(x, sorted)[1..] == Insert(x, sorted[1..]);
    }
  }

  // ---------------------------------------------------------------- the map

  predicate Plain(s: seq<Entry>) {
    forall e | e in s :: PlainUrl(e.url)
  }

  /** What the map holds, in insertion order. */
  predicate Tidy(s: seq<Entry>) {
    DifferentTimes(s) && OneEach(s) && Plain(s)
  }

  function FindEntry(s: seq<Entry>, key: Str): (r: Option<Entry>)
    ensures r.Some? ==> r.value in s && Key(r.value) == key
  {
    if s == [] then None else if Key(s[0]) == key then Some(s[0]) else FindEntry(s[1..], key)
  }

  /** Setting a key keeps its place, a new key goes to the end. */
  function Put(s: seq<Entry>, e: Entry): seq<Entry> {
    if s == [] then [e] else if Key(s[0]) == Key(e) then [e] + s[1..] else [s[0]] + Put(s[1..], e)
  }

  function DeleteKey(s: seq<Entry>, key: Str): seq<Entry> {
    if s == [] then []
    else if Key(s[0]) == key then DeleteKey(s[1..], key)
    else [s[0]] + DeleteKey(s[1..], key)
  }

  lemma {:induction false} DeleteIsWithout(s: seq<Entry>, x: Entry)
    requires Plain(s) && PlainUrl(x.url)
    ensures DeleteKey(s, Key(x)) == Without(s, x)
  {
    if s != [] {
      assert s[0] in s;
      KeyIsInjective(s[0], x);
      DeleteIsWithout(s[1..], x);
    }
  }

  lemma {:induction false} TidyWithout(s: seq<Entry>, x: Entry)
    requires Tidy(s)
    ensures Tidy(Without(s, x))
  {
    if s != [] {
      TidyWithout(s[1..], x);
      assert !Same(s[0], x) ==> Without(s, x)[1..] == Without(s[1..], x);
    }
  }

  lemma {:induction false} TidyPut(s: seq<Entry>, e: Entry)
    requires Tidy(s) && PlainUrl(e.url) && AllOther(s, e.lastUsedAt)
    ensures Tidy(Put(s, e))
    ensures forall x :: x in Put(s, e) <==> x == e || (x in s && !Same(x, e))
  {
    if s != [] {
      assert s == [s[0]] + s[1..] && s[0] in s;
      KeyIsInjective(s[0], e);
      if Same(s[0], e) {
        assert Put(s, e)[1..] == s[1..];
      } else {
        TidyPut(s[1..], e);
        assert Put(s, e)[1..] == Put(s[1..], e);
      }
    }
  }

  function NotOlder(s: seq<Entry>, threshold: int): seq<Entry> {
    if s == [] then []
    else if s[0].lastUsedAt < threshold then NotOlder(s[1..], threshold)
    else [s[0]] + NotOlder(s[1..], threshold)
  }

  lemma {:induction false} NotOlderMembers(s: seq<Entry>, threshold: int)
    ensures forall e :: e in NotOlder(s, threshold) <==> e in s && e.lastUsedAt >= threshold
  {
    if s != [] {
      NotOlderMembers(s[1..], threshold);
      assert s == [s[0]] + s[1..];
    }
  }

  lemma {:induction false} TidyNotOlder(s: seq<Entry>, threshold: int)
    requires Tidy(s)
    ensures Tidy(NotOlder(s, threshold))
  {
    if s != [] {
      TidyNotOlder(s[1..], threshold);
      NotOlderMembers(s[1..], threshold);
      assert s[0].lastUsedAt >= threshold ==> NotOlder(s, threshold)[1..] == NotOlder(s[1..], threshold);
    }
  }

  lemma NoneLikeFront(l: seq<Entry>)
    requires l != []
    ensures forall e :: NoneLike(l, e) <==> NoneLike(Front(l), e) && !Same(e, Last(l))
  {
    FrontLast(l);
    forall e ensures NoneLike(l, e) <==> NoneLike(Front(l), e) && !Same(e, Last(l)) {
      assert Same(e, Last(l)) <==> Same(Last(l), e);
    }
  }

  function DropAll(s: seq<Entry>, tail: seq<Entry>): seq<Entry> {
    if tail == [] then s else Without(DropAll(s, Front(tail)), Last(tail))
  }

  lemma {:induction false} DropAllMembers(s: seq<Entry>, tail: seq<Entry>)
    ensures forall e :: e in DropAll(s, tail) <==> e in s && NoneLike(tail, e)
  {
    if tail != [] {
      NoneLikeFront(tail);
      DropAllMembers(s, Front(tail));
    }
  }

  lemma {:induction false} TidyDropAll(s: seq<Entry>, tail: seq<Entry>)
    requires Tidy(s)
    ensures Tidy(DropAll(s, tail))
  {
    if tail != [] {
      TidyDropAll(s, Front(tail));
      TidyWithout(DropAll(s, Front(tail)), Last(tail));
    }
  }

  /** What pruning leaves. */
  function Pruned(s: seq<Entry>, max: nat, threshold: int): seq<Entry> {
    var recent := NotOlder(s, threshold);
    var sorted := SortByUse(recent);
    if |sorted| <= max then recent else DropAll(recent, sorted[max..])
  }

  lemma {:induction false} KeptMembers(l: seq<Entry>, threshold: int)
    requires Descending(l)
    ensures forall e :: e in Kept(l, |l|, threshold) <==> e in l && e.lastUsedAt >= threshold
  {
    if l != [] {
      assert l == [l[0]] + l[1..];
      KeptMembers(l[1..], threshold);
    }
  }

  lemma {:induction false} KeptIsCapped(l: seq<Entry>, max: nat, wide: nat, threshold: int)
    requires max <= wide
    ensures var all := Kept(l, wide, threshold);
            Kept(l, max, threshold) == if |all| <= max then all else all[..max]
  {
    if l != [] && max > 0 && l[0].lastUsedAt >= threshold {
      KeptIsCapped(l[1..], max - 1, wide - 1, threshold);
    }
  }

  lemma {:induction false} SplitOneEach(l: seq<Entry>, n: nat)
    requires n <= |l| && OneEach(l)
    ensures forall e | e in l[..n] :: NoneLike(l[n..], e)
    ensures forall e | e in l && NoneLike(l[n..], e) :: e in l[..n]
  {
    assert l == l[..n] + l[n..];
    if n > 0 {
      SplitOneEach(l[1..], n - 1);
      assert l[1..][..n - 1] == l[..n][1..] && l[1..][n - 1..] == l[n..];
      assert l[..n] == [l[0]] + l[..n][1..];
    }
  }

  lemma {:induction false} DescendingPrefix(l: seq<Entry>, n: nat)
    requires n <= |l| && Descending(l)
    ensures Descending(l[..n])
  {
    if n > 0 {
      DescendingPrefix(l[1..], n - 1);
      assert l[..n][1..] == l[1..][..n - 1];
    }
  }

  lemma SortNotOlder(s: seq<Entry>, threshold: int)
    requires Tidy(s)
    ensures SortByUse(NotOlder(s, threshold)) == Kept(SortByUse(s), |s|, threshold)
  {
    var f, l := NotOlder(s, threshold), SortByUse(s);
    NotOlderMembers(s, threshold);
    TidyNotOlder(s, threshold);
    SortDescends(s);
    SortDescends(f);
    SortMembers(s);
    SortMembers(f);
    KeptMembers(l, threshold);
    KeptIsPrefix(l, |l|, threshold);
    DescendingPrefix(l, |Kept(l, |l|, threshold)|);
    DescendingUnique(SortByUse(f), Kept(l, |l|, threshold));
  }

  lemma SortDropTail(f: seq<Entry>, max: nat)
    requires Tidy(f) && max <= |f|
    ensures SortByUse(DropAll(f, SortByUse(f)[max..])) == SortByUse(f)[..max]
  {
    var sorted := SortByUse(f);
    var g := DropAll(f, sorted[max..]);
    DropAllMembers(f, sorted[max..]);
    SortDescends(f);
    SortOneEach(f);
    TidyDropAll(f, sorted[max..]);
    SortDescends(g);
    SortMembers(f);
    SortMembers(g);
    SplitOneEach(sorted, max);
    DescendingPrefix(sorted, max);
    DescendingUnique(SortByUse(g), sorted[..max]);
  }

  /** Pruning keeps the latest entries within the limit and the retention, and nothing else. */
  lemma PrunedSorts(s: seq<Entry>, max: nat, threshold: int)
    requires Tidy(s)
    ensures Tidy(Pruned(s, max, threshold)) && SortByUse(Pruned(s, max, threshold)) == Kept(SortByUse(s), max, threshold)
  {
    var f := NotOlder(s, threshold);
    TidyNotOlder(s, threshold);
    SortNotOlder(s, threshold);
    if |f| > max {
      TidyDropAll(f, SortByUse(f)[max..]);
      SortDropTail(f, max);
      KeptIsCapped(SortByUse(s), max, |s|, threshold);
    } else if max <= |s| {
      KeptIsCapped(SortByUse(s), max, |s|, threshold);
    } else {
      KeptIsCapped(SortByUse(s), |s|, max, threshold);
    }
  }

  // ---------------------------------------------------------------- looking up

  /** The most recent of a list that has a purpose. */
  function FirstFor(l: seq<Entry>, purpose: Str): Option<Entry> {
    if l == [] then None else if l[0].purpose == purpose then Some(l[0]) else FirstFor(l[1..], purpose)
  }

  function WithPurpose(s: seq<Entry>, purpose: Str): seq<Entry> {
    if s == [] then []
    else if s[0].purpose == purpose then [s[0]] + WithPurpose(s[1..], purpose)
    else WithPurpose(s[1..], purpose)
  }

  lemma {:induction false} FirstForIsLatest(l: seq<Entry>, purpose: Str, e: Entry)
    requires Descending(l) && e in l && e.purpose == purpose
    ensures var r := FirstFor(l, purpose);
            r.Some? && r.value in l && r.value.purpose == purpose && r.value.lastUsedAt >= e.lastUsedAt
  {
    assert l == [l[0]] + l[1..];
    if l[0].purpose != purpose {
      FirstForIsLatest(l[1..], purpose, e);
    }
  }

  lemma {:induction false} WithPurposeMembers(s: seq<Entry>, purpose: Str)
    ensures forall e :: e in WithPurpose(s, purpose) <==> e in s && e.purpose == purpose
  {
    if s != [] {
      WithPurposeMembers(s[1..], purpose);
      assert s == [s[0]] + s[1..];
    }
  }

  /** Filtering before sorting finds the same entry. */
  lemma {:induction false} WithPurposeDescends(l: seq<Entry>, purpose: Str)
    requires Descending(l)
    ensures Descending(WithPurpose(l, purpose))
    ensures FirstFor(l, purpose) == if WithPurpose(l, purpose) == [] then None else Some(WithPurpose(l, purpose)[0])
  {
    if l != [] {
      WithPurposeDescends(l[1..], purpose);
      WithPurposeMembers(l[1..], purpose);
      assert l[0].purpose == purpose ==> WithPurpose(l, purpose)[1..] == WithPurpose(l[1..], purpose);
    }
  }

  lemma {:induction false} TidyWithPurpose(s: seq<Entry>, purpose: Str)
    requires Tidy(s)
    ensures Tidy(WithPurpose(s, purpose))
  {
    if s != [] {
      TidyWithPurpose(s[1..], purpose);
      WithPurposeMembers(s[1..], purpose);
      assert s[0].purpose == purpose ==> WithPurpose(s, purpose)[1..] == WithPurpose(s[1..], purpose);
    }
  }

  lemma FirstIsLatest(s: seq<Entry>, purpose: Str)
    requires Tidy(s)
    ensures FirstFor(SortByUse(s), purpose)
         == var found := SortByUse(WithPurpose(s, purpose)); if found == [] then None else Some(found[0])
  {
    var l := SortByUse(s);
    SortDescends(s);
    TidyWithPurpose(s, purpose);
    SortDescends(WithPurpose(s, purpose));
    SortMembers(s);
    SortMembers(WithPurpose(s, purpose));
    WithPurposeDescends(l, purpose);
    WithPurposeMembers(s, purpose);
    WithPurposeMembers(l, purpose);
    DescendingUnique(SortByUse(WithPurpose(s, purpose)), WithPurpose(l, purpose));
  }

  // ---------------------------------------------------------------- the cache

  /** Which addresses are remembered: web addresses without credentials, query and fragment. */
  function CacheableUrl(parse: Str -> Option<Address>, value: Option<Str>): Result<Option<Str>, CacheError> {
    if value.None? || value.value == [] then Success(None)
    else
      var a := parse(value.value);
      if a.None? then Failure(InvalidUrl)
      else if !a.value.web then Success(None)
      else if a.value.username != [] || a.value.password != [] || a.value.search != [] || a.value.hash != [] then Success(None)
      else Success(Some(a.value.href))
  }

  /** An address is remembered exactly when it parses as a web address without credentials, query
      and fragment; text that does not parse is an error, and nothing is asked of empty text. */
  lemma RememberedExactlyWhen(parse: Str -> Option<Address>, value: Str)
    ensures var r := CacheableUrl(parse, Some(value));
            && (r == Failure(InvalidUrl) <==> value != [] && parse(value) == None)
            && forall href :: r == Success(Some(href)) <==>
                 value != [] && parse(value) != None
                 && parse(value).value == Address(true, [], [], [], [], href)
  {
  }

  lemma PutAfterRecord(s: seq<Entry>, e: Entry)
    requires Tidy(s) && PlainUrl(e.url) && AllBefore(s, e.lastUsedAt)
    ensures SortByUse(Put(s, e)) == [e] + Without(SortByUse(s), e)
  {
    TidyPut(s, e);
    SortDescends(s);
    SortDescends(Put(s, e));
    SortMembers(s);
    SortMembers(Put(s, e));
    SortOneEach(s);
    WithoutKeeps(SortByUse(s), e);
    var r := [e] + Without(SortByUse(s), e);
    assert r[1..] == Without(SortByUse(s), e);
    DescendingUnique(SortByUse(Put(s, e)), r);
  }

  ghost predicate PlainHrefs(parse: Str -> Option<Address>) {
    forall v: Str | parse(v).Some? :: PlainUrl(parse(v).value.href)
  }

  /** What parses an address gives a serialized one. */
  type Parser = parse: Str -> Option<Address> | PlainHrefs(parse) witness (_: Str) => None

  /** What a use of an address makes of the entry it had. */
  function NextEntry(entries: seq<Entry>, url: Str, input: Input, closed: bool, now: int): Entry {
    var current := FindEntry(entries, KeyText(url, input.purpose));
    Entry(url, input.purpose, input.title,
      if current.Some? then current.value.firstUsedAt else now, now,
      if closed then Some(now) else if current.Some? then current.value.lastClosedAt else None,
      if current.Some? then current.value.useCount + 1 else 1)
  }

  /** The address a caller asked for, or the one the tab shows. */
  function Asked(input: Input): Option<Str> {
    if input.requestedUrl.Some? then input.requestedUrl else input.url
  }

  function Recorded(url: Result<Option<Str>, CacheError>, entries: seq<Entry>, input: Input, closed: bool, now: int)
    : Result<Option<Entry>, CacheError>
  {
    if url.Failure? then Failure(url.error)
    else if url.value.None? then Success(None)
    else Success(Some(NextEntry(entries, url.value.value, input, closed, now)))
  }

  lemma RecordedIsPlain(parse: Parser, value: Option<Str>, entries: seq<Entry>, input: Input, closed: bool, now: int)
    ensures var r := Recorded(CacheableUrl(parse, value), entries, input, closed, now);
            r.Success? && r.value.Some? ==> PlainUrl(r.value.value.url) && r.value.value.lastUsedAt == now
  {
  }

  /** A record keeps when its pair was first used and last closed, and counts on. */
  lemma RecordedFields(entries: seq<Entry>, url: Str, input: Input, closed: bool, now: int)
    ensures var e, before := NextEntry(entries, url, input, closed, now), FindEntry(entries, KeyText(url, input.purpose));
            && e.url == url && e.purpose == input.purpose && e.title == input.title && e.lastUsedAt == now
            && (closed ==> e.lastClosedAt == Some(now))
            && match before
               case None => e.firstUsedAt == now && e.useCount == 1 && (!closed ==> e.lastClosedAt == None)
               case Some(b) =>
                 e.firstUsedAt == b.firstUsedAt && e.useCount == b.useCount + 1 && (!closed ==> e.lastClosedAt == b.lastClosedAt)
  {
  }

  /** How often the address was used for the purpose since the entry was first made. */
  function UsesSince(log: seq<Entry>, e: Entry): nat {
    if log == [] then 0
    else UsesSince(Front(log), e) + if Same(Last(log), e) && Last(log).lastUsedAt >= e.firstUsedAt then 1 else 0
  }

  /** Every record counts the uses since its pair was last absent. */
  ghost predicate Counted(log: seq<Entry>) {
    || log == []
    || (&& Counted(Front(log))
        && Last(log).firstUsedAt <= Last(log).lastUsedAt && Last(log).useCount == UsesSince(log, Last(log)))
  }

  lemma {:induction false} CountedAt(log: seq<Entry>, c: Entry)
    requires Increasing(log) && Counted(log) && c in log && forall x | x in log && Same(x, c) :: x.lastUsedAt <= c.lastUsedAt
    ensures c.firstUsedAt <= c.lastUsedAt && c.useCount == UsesSince(log, c)
  {
    FrontLast(log);
    if c != Last(log) {
      assert !Same(Last(log), c);
      CountedAt(Front(log), c);
    }
  }

  lemma {:induction false} NotUsedSince(log: seq<Entry>, e: Entry)
    requires AllBefore(log, e.firstUsedAt)
    ensures UsesSince(log, e) == 0
  {
    if log != [] {
      FrontLast(log);
      NotUsedSince(Front(log), e);
    }
  }

  lemma {:induction false} SameUses(log: seq<Entry>, c: Entry, e: Entry)
    requires Same(c, e) && c.firstUsedAt == e.firstUsedAt
    ensures UsesSince(log, c) == UsesSince(log, e)
  {
    if log != [] { SameUses(Front(log), c, e); }
  }

  lemma {:induction false} OneEachIsLast(l: seq<Entry>, a: Entry, b: Entry)
    requires OneEach(l) && a in l && b in l && Same(a, b)
    ensures a == b
  {
    assert l == [l[0]] + l[1..];
    assert Same(b, a);
    if a in l[1..] && b in l[1..] { OneEachIsLast(l[1..], a, b); }
  }

  /** An entry that is kept is the last record of its pair. */
  lemma KeptIsLast(log: seq<Entry>, c: Entry)
    requires Increasing(log) && c in MostRecent(log)
    ensures c in log && forall x | x in log && Same(x, c) :: x.lastUsedAt <= c.lastUsedAt
  {
    MostRecentInLog(log);
    MostRecentDescends(log);
    forall x | x in log && Same(x, c) ensures x.lastUsedAt <= c.lastUsedAt {
      MostRecentIsRight(log, x);
      var e :| e in MostRecent(log) && Same(e, x) && x.lastUsedAt <= e.lastUsedAt;
      OneEachIsLast(MostRecent(log), e, c);
    }
  }

  /** The count a record gets is the number of uses since its first one. */
  lemma RecordCounts(s: seq<Entry>, log: seq<Entry>, url: Str, input: Input, closed: bool, now: int, max: nat, threshold: int)
    requires Mirrors(s, log, max, threshold) && Counted(log) && AllBefore(log, now) && PlainUrl(url)
    ensures Counted(log + [NextEntry(s, url, input, closed, now)])
  {
    var e := NextEntry(s, url, input, closed, now);
    var current := FindEntry(s, KeyText(url, input.purpose));
    assert Front(log + [e]) == log;
    if current.Some? {
      var c := current.value;
      CurrentIsLast(s, log, c, max, threshold);
      CountedAt(log, c);
      assert c in s;
      KeyIsInjective(c, e);
      SameUses(log, c, e);
    } else {
      NotUsedSince(log, e);
    }
  }

  lemma CurrentIsLast(s: seq<Entry>, log: seq<Entry>, c: Entry, max: nat, threshold: int)
    requires Mirrors(s, log, max, threshold) && c in s
    ensures c in log && forall x | x in log && Same(x, c) :: x.lastUsedAt <= c.lastUsedAt
  {
    SortMembers(s);
    KeptIsPrefix(MostRecent(log), max, threshold);
    assert c in SortByUse(s);
    assert c in MostRecent(log);
    KeptIsLast(log, c);
  }

  /** Sorted, the entries are exactly the most recent part of the log. */
  ghost predicate Mirrors(entries: seq<Entry>, log: seq<Entry>, max: nat, threshold: int) {
    Tidy(entries) && Increasing(log) && SortByUse(entries) == Kept(MostRecent(log), max, threshold)
  }

  lemma PruneMirrors(s: seq<Entry>, log: seq<Entry>, max: nat, earlier: int, later: int)
    requires Mirrors(s, log, max, earlier) && earlier <= later
    ensures Mirrors(Pruned(s, max, later), log, max, later)
  {
    MostRecentDescends(log);
    KeptTwice(MostRecent(log), max, earlier, later);
    PrunedSorts(s, max, later);
  }

  lemma KeptIsOld(s: seq<Entry>, log: seq<Entry>, max: nat, threshold: int, time: int)
    requires SortByUse(s) == Kept(MostRecent(log), max, threshold) && AllBefore(log, time)
    ensures AllBefore(s, time) && AllOther(s, time)
  {
    MostRecentInLog(log);
    SortMembers(s);
    KeptIsPrefix(MostRecent(log), max, threshold);
    forall x | x in s ensures x.lastUsedAt < time {
      assert x in SortByUse(s);
    }
  }

  /** Recording keeps the cache equal to the recent part of the log. */
  lemma RecordMirrors(s: seq<Entry>, log: seq<Entry>, e: Entry, max: nat, earlier: int, later: int)
    requires Mirrors(s, log, max, earlier) && AllBefore(log, e.lastUsedAt) && PlainUrl(e.url) && earlier <= later
    ensures Tidy(Put(s, e)) && Mirrors(Pruned(Put(s, e), max, later), log + [e], max, later)
  {
    MostRecentDescends(log);
    KeptIsOld(s, log, max, earlier, e.lastUsedAt);
    TidyPut(s, e);
    PutAfterRecord(s, e);
    PrunedSorts(Put(s, e), max, later);
    KeptAfterRecord(MostRecent(log), e, max, earlier, later);
    assert Front(log + [e]) == log;
  }

  /** Deleting entries by key, one after another. */
  method DeleteEntries(s: seq<Entry>, tail: seq<Entry>) returns (r: seq<Entry>)
    requires Plain(s) && Plain(tail)
    ensures r == DropAll(s, tail)
  {
    r := s;
    var i := 0;
    while i < |tail|
      invariant 0 <= i <= |tail|
      invariant r == DropAll(s, tail[..i]) && Plain(r)
    {
      assert Front(tail[..i + 1]) == tail[..i] && Last(tail[..i + 1]) == tail[i];
      assert tail[i] in tail;
      DeleteIsWithout(r, tail[i]);
      r := DeleteKey(r, Key(tail[i]));
      i := i + 1;
    }
    assert tail[..i] == tail;
  }

  lemma PlainTail(s: seq<Entry>, n: nat)
    requires Plain(s) && n <= |s|
    ensures Plain(s[n..])
  {
  }

  /** Drop what is too old, then what is beyond the limit, latest first. */
  method PruneEntries(entries: seq<Entry>, max: nat, threshold: int) returns (r: seq<Entry>)
    requires Plain(entries)
    ensures r == Pruned(entries, max, threshold)
  {
    r := NotOlder(entries, threshold);
    NotOlderMembers(entries, threshold);
    var sorted := SortByUse(r);
    if |sorted| > max {
      SortMembers(r);
      assert Plain(sorted);
      PlainTail(sorted, max);
      r := DeleteEntries(r, sorted[max..]);
    }
  }

  method PruneStep(entries: seq<Entry>, max: nat, threshold: int, ghost earlier: int, ghost log: seq<Entry>, ghost inOrder: bool)
    returns (r: seq<Entry>)
    requires Plain(entries) && (inOrder ==> Mirrors(entries, log, max, earlier) && earlier <= threshold)
    ensures r == Pruned(entries, max, threshold) && Plain(r)
    ensures inOrder ==> Mirrors(r, log, max, threshold)
  {
    if inOrder { PruneMirrors(entries, log, max, earlier, threshold); }
    r := PruneEntries(entries, max, threshold);
    PrunedIsPlain(entries, max, threshold);
  }

  lemma PrunedIsPlain(s: seq<Entry>, max: nat, threshold: int)
    requires Plain(s)
    ensures Plain(Pruned(s, max, threshold))
  {
    NotOlderMembers(s, threshold);
    var f := NotOlder(s, threshold);
    if |SortByUse(f)| > max { DropAllMembers(f, SortByUse(f)[max..]); }
  }

  lemma {:induction false} PutIsPlain(s: seq<Entry>, e: Entry)
    requires Plain(s) && PlainUrl(e.url)
    ensures Plain(Put(s, e))
  {
    if s != [] {
      assert s == [s[0]] + s[1..];
      PutIsPlain(s[1..], e);
    }
  }

  method RecordStep(entries: seq<Entry>, e: Entry, max: nat, threshold: int, ghost earlier: int, ghost log: seq<Entry>, ghost inOrder: bool)
    returns (r: seq<Entry>)
    requires Plain(entries) && PlainUrl(e.url)
    requires inOrder ==> Mirrors(entries, log, max, earlier) && earlier <= threshold && AllBefore(log, e.lastUsedAt)
    ensures r == Pruned(Put(entries, e), max, threshold) && Plain(r)
    ensures inOrder ==> Mirrors(r, log + [e], max, threshold)
  {
    if inOrder { RecordMirrors(entries, log, e, max, earlier, threshold); }
    PutIsPlain(entries, e);
    r := PruneEntries(Put(entries, e), max, threshold);
    PrunedIsPlain(Put(entries, e), max, threshold);
  }

  datatype Lookup = Lookup(entry: Entry, ageMs: int)

  function Aged(found: Option<Entry>, now: int): Option<Lookup> {
    if found.None? then None
    else Some(Lookup(found.value, if now < found.value.lastUsedAt then 0 else now - found.value.lastUsedAt))
  }

  /** What a look-up finds in the entries: the first of those with the purpose, latest first. */
  function Found(entries: seq<Entry>, purpose: Str, now: int): Option<Lookup> {
    var candidates := SortByUse(WithPurpose(entries, purpose));
    Aged(if candidates == [] then None else Some(candidates[0]), now)
  }

  /** The latest entry for the purpose among those the log says are still kept. */
  ghost function Latest(log: seq<Entry>, max: nat, threshold: int, purpose: Str, now: int): Option<Lookup> {
    Aged(FirstFor(Kept(MostRecent(log), max, threshold), purpose), now)
  }

  lemma FoundIsLatest(entries: seq<Entry>, log: seq<Entry>, max: nat, threshold: int, purpose: Str, now: int)
    requires Mirrors(entries, log, max, threshold)
    ensures Found(entries, purpose, now) == Latest(log, max, threshold, purpose, now)
  {
    FirstIsLatest(entries, purpose);
  }

  method FoundStep(entries: seq<Entry>, purpose: Str, now: int, max: nat, threshold: int, ghost log: seq<Entry>, ghost inOrder: bool)
    returns (r: Option<Lookup>)
    requires inOrder ==> Mirrors(entries, log, max, threshold)
    ensures r == Found(entries, purpose, now)
    ensures inOrder ==> r == Latest(log, max, threshold, purpose, now)
  {
    if inOrder { FoundIsLatest(entries, log, max, threshold, purpose, now); }
    r := Found(entries, purpose, now);
  }

  method SortedStep(entries: seq<Entry>, max: nat, threshold: int, ghost log: seq<Entry>, ghost inOrder: bool) returns (r: seq<Entry>)
    requires inOrder ==> Mirrors(entries, log, max, threshold)
    ensures r == SortByUse(entries)
    ensures inOrder ==> r == Kept(MostRecent(log), max, threshold)
  {
    r := SortByUse(entries);
  }

  class NavigationCache {
    const parse: Parser
    const maxEntries: nat
    const retentionMs: int
    var entries: seq<Entry>
    /** Every entry `record` made, in order, what the latest pruning let pass, and whether every
        record so far was later than the one before and no call lay before an earlier pruning. */
    ghost var log: seq<Entry>
    ghost var threshold: int
    ghost var inOrder: bool

    /** As long as the times went forward, the cache mirrors its log. */
    ghost predicate Valid()
      reads this
    {
      && Plain(entries)
      && (inOrder ==> Mirrors(entries, log, maxEntries, threshold) && Counted(log))
    }

    constructor (parse: Parser, maxEntries: nat, retentionMs: int, now: int)
      ensures Valid() && log == [] && entries == [] && threshold == now - retentionMs && inOrder
      ensures this.parse == parse && this.maxEntries == maxEntries && this.retentionMs == retentionMs
    {
      this.parse, this.maxEntries, this.retentionMs := parse, maxEntries, retentionMs;
      entries, log, threshold, inOrder := [], [], now - retentionMs, true;
    }

    method Prune(now: int)
      requires Valid()
      modifies `entries, `threshold, `inOrder
      ensures Valid() && threshold == now - retentionMs && inOrder == (old(inOrder) && now - retentionMs >= old(threshold))
      ensures entries == Pruned(old(entries), maxEntries, now - retentionMs)
    {
      inOrder := inOrder && now - retentionMs >= threshold;
      entries := PruneStep(entries, maxEntries, now - retentionMs, threshold, log, inOrder);
      threshold := now - retentionMs;
    }

    method Store(entry: Entry, now: int)
      requires Valid() && PlainUrl(entry.url)
      requires inOrder && AllBefore(log, entry.lastUsedAt) ==> Counted(log + [entry])
      modifies `entries, `log, `threshold, `inOrder
      ensures Valid() && log == old(log) + [entry] && threshold == now - retentionMs
      ensures inOrder == (old(inOrder) && AllBefore(old(log), entry.lastUsedAt) && now - retentionMs >= old(threshold))
      ensures entries == Pruned(Put(old(entries), entry), maxEntries, now - retentionMs)
    {
      inOrder := inOrder && AllBefore(log, entry.lastUsedAt) && now - retentionMs >= threshold;
      entries := RecordStep(entries, entry, maxEntries, now - retentionMs, threshold, log, inOrder);
      log := log + [entry];
      threshold := now - retentionMs;
    }

    /** The entry is the address's with its use counted. */
    method Record(input: Input, closed: bool, now: int) returns (r: Result<Option<Entry>, CacheError>)
      requires Valid()
      modifies this
      ensures Valid()
      ensures var asked := match input.requestedUrl case Some(u) => Some(u) case None => input.url;
              r == Recorded(CacheableUrl(parse, asked), old(entries), input, closed, now)
      ensures if r.Success? && r.value.Some? then
                && log == old(log) + [r.value.value] && threshold == now - retentionMs
                && inOrder == (old(inOrder) && AllBefore(old(log), now) && now - retentionMs >= old(threshold))
                && entries == Pruned(Put(old(entries), r.value.value), maxEntries, now - retentionMs)
              else log == old(log) && entries == old(entries) && threshold == old(threshold) && inOrder == old(inOrder)
    {
      var url := CacheableUrl(parse, Asked(input));
      r := Recorded(url, entries, input, closed, now);
      RecordedIsPlain(parse, Asked(input), entries, input, closed, now);
      if r.Success? && r.value.Some? {
        if inOrder && AllBefore(log, now) {
          RecordCounts(entries, log, url.value.value, input, closed, now, maxEntries, threshold);
        }
        Store(r.value.value, now);
      }
    }

    method Resolve(purpose: Str, now: int) returns (r: Option<Lookup>)
      requires Valid()
      modifies `entries, `threshold, `inOrder
      ensures Valid() && threshold == now - retentionMs && inOrder == (old(inOrder) && now - retentionMs >= old(threshold))
      ensures entries == Pruned(old(entries), maxEntries, now - retentionMs) && r == Found(entries, purpose, now)
      ensures inOrder ==> r == Latest(log, maxEntries, now - retentionMs, purpose, now)
      ensures r != None && now >= r.value.entry.lastUsedAt ==> r.value.ageMs == now - r.value.entry.lastUsedAt
      ensures r != None && now < r.value.entry.lastUsedAt ==> r.value.ageMs == 0
    {
      Prune(now);
      r := FoundStep(entries, purpose, now, maxEntries, now - retentionMs, log, inOrder);
    }

    method List(now: int) returns (r: seq<Entry>)
      requires Valid()
      modifies `entries, `threshold, `inOrder
      ensures Valid() && threshold == now - retentionMs && inOrder == (old(inOrder) && now - retentionMs >= old(threshold))
      ensures entries == Pruned(old(entries), maxEntries, now - retentionMs) && r == SortByUse(entries)
      ensures inOrder ==> r == Kept(MostRecent(log), maxEntries, now - retentionMs)
    {
      Prune(now);
      r := SortedStep(entries, maxEntries, now - retentionMs, log, inOrder);
    }
  }
}
