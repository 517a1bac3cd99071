/** The text digested for a source-control confirmation (typed-confirmation.ts):
    confirmation ids are taken out at every depth, credential-like fields are refused,
    and the rest is printed canonically. */
module ConfirmationDigest {
  import opened Text
  import opened CanonicalJson

  datatype DigestError = NotAJsonObject | SensitiveField | NotPrintable

  function Ascii(s: string): Str
    requires forall i | 0 <= i < |s| :: s[i] < 128 as char
  {
    seq(|s|, i requires 0 <= i < |s| => s[i] as int)
  }

  /** Lower-casing followed by dropping everything but a-z and 0-9. Outside ASCII only the
      dotted capital I and the Kelvin sign lower to something that is kept. */
  function NormalizedUnit(c: CodeUnit): Str {
    if 0x41 <= c <= 0x5A then [c + 0x20]
    else if 0x61 <= c <= 0x7A || 0x30 <= c <= 0x39 then [c]
    else if c == 0x130 then [0x69]
    else if c == 0x212A then [0x6B]
    else []
  }

  function NormalizeKey(key: Str): Str {
    if key == [] then [] else NormalizedUnit(key[0]) + NormalizeKey(key[1..])
  }

  predicate Includes(s: Str, part: Str) {
    IsPrefix(part, s) || (s != [] && Includes(s[1..], part))
  }

  predicate IsConfirmation(key: Str) {
    NormalizeKey(key) == Ascii("confirmationid")
  }

  predicate IsSensitive(key: Str) {
    var k := NormalizeKey(key);
    || Includes(k, Ascii("authorization"))
    || k == Ascii("token")
    || IsSuffix(Ascii("token"), k)
    || Includes(k, Ascii("credential"))
    || Includes(k, Ascii("password"))
    || Includes(k, Ascii("secret"))
    || IsSuffix(Ascii("apikey"), k)
    || Includes(k, Ascii("privatekey"))
  }

  /** Letters are lowered, digits kept, and of all other units only two keep something. */
  lemma NormalizedUnitTable(c: CodeUnit)
    ensures var upper, lower, digits := "ABCDEFGHIJKLMNOPQRSTUVWXYZ", "abcdefghijklmnopqrstuvwxyz", "0123456789";
            && (forall i | 0 <= i < 26 && upper[i] as int == c :: NormalizedUnit(c) == [lower[i] as int])
            && (forall i | 0 <= i < 26 && lower[i] as int == c :: NormalizedUnit(c) == [c])
            && (forall i | 0 <= i < 10 && digits[i] as int == c :: NormalizedUnit(c) == [c])
            && (c == 0x130 ==> NormalizedUnit(c) == ['i' as int]) && (c == 0x212A ==> NormalizedUnit(c) == ['k' as int])
            && (c != 0x130 && c != 0x212A && (forall d | d in upper + lower + digits :: d as int != c) ==> NormalizedUnit(c) == [])
  {
    var upper, lower, digits := "ABCDEFGHIJKLMNOPQRSTUVWXYZ", "abcdefghijklmnopqrstuvwxyz", "0123456789";
    assert forall i | 0 <= i < 26 :: upper[i] as int == 0x41 + i && lower[i] as int == 0x61 + i;
    assert forall i | 0 <= i < 10 :: digits[i] as int == 0x30 + i;
    if 0x41 <= c <= 0x5A {
      assert upper[c - 0x41] in upper + lower + digits;
    } else if 0x61 <= c <= 0x7A {
      assert lower[c - 0x61] in upper + lower + digits;
    } else if 0x30 <= c <= 0x39 {
      assert digits[c - 0x30] in upper + lower + digits;
    }
  }

  lemma {:induction false} IncludesIsWithin(s: Str, part: Str)
    requires Includes(s, part)
    ensures Within(part, s)
  {
    if IsPrefix(part, s) {
      assert s == [] + part + s[|part|..];
    } else {
      IncludesIsWithin(s[1..], part);
      var before, after :| s[1..] == before + part + after;
      assert s == ([s[0]] + before) + part + after;
    }
  }

  lemma {:induction false} WithinIsIncluded(before: Str, part: Str, after: Str)
    ensures Includes(before + part + after, part)
  {
    var s := before + part + after;
    if before == [] {
      assert s[..|part|] == part;
    } else {
      WithinIsIncluded(before[1..], part, after);
      assert s[1..] == before[1..] + part + after;
    }
  }

  lemma IncludesExactlyWithin(s: Str, part: Str)
    ensures Includes(s, part) <==> Within(part, s)
  {
    if Includes(s, part) { IncludesIsWithin(s, part); }
    if Within(part, s) {
      var before, after :| s == before + part + after;
      WithinIsIncluded(before, part, after);
    }
  }

  /** A key is refused exactly when its letters and digits hold one of five words or end in one
      of two. */
  lemma SensitiveExactlyWhen(key: Str)
    ensures var k := NormalizeKey(key);
            IsSensitive(key) <==>
              || Within(Ascii("authorization"), k) || Within(Ascii("credential"), k) || Within(Ascii("password"), k)
              || Within(Ascii("secret"), k) || Within(Ascii("privatekey"), k)
              || IsSuffix(Ascii("token"), k) || IsSuffix(Ascii("apikey"), k)
  {
    var k := NormalizeKey(key);
    IncludesExactlyWithin(k, Ascii("authorization"));
    IncludesExactlyWithin(k, Ascii("credential"));
    IncludesExactlyWithin(k, Ascii("password"));
    IncludesExactlyWithin(k, Ascii("secret"));
    IncludesExactlyWithin(k, Ascii("privatekey"));
  }

  /** Assigning to this key of a fresh object sets its prototype and adds no property. */
  const PROTO_KEY: Str := [0x5F, 0x5F, 0x70, 0x72, 0x6F, 0x74, 0x6F, 0x5F, 0x5F]

  // ---------------------------------------------------------------- the code's pass

  function Remove(v: Value): Result<Value, DigestError>
    decreases v, 1
  {
    match v
    case Arr(items) =>
      var kept :- RemoveItems(items);
      Success(Arr(kept))
    case Obj(plain, entries) =>
      if !plain then Failure(NotAJsonObject)
      else
        var kept :- RemoveEntries(entries);
        Success(Obj(true, kept))
    case _ => Success(v)
  }

  function RemoveItems(items: seq<Value>): Result<seq<Value>, DigestError>
    decreases items, 0
  {
    if items == [] then Success([])
    else
      var first :- Remove(items[0]);
      var rest :- RemoveItems(items[1..]);
      Success([first] + rest)
  }

  function RemoveEntries(entries: seq<Entry>): Result<seq<Entry>, DigestError>
    decreases entries, 0
  {
    if entries == [] then Success([])
    else if IsConfirmation(entries[0].key) then RemoveEntries(entries[1..])
    else if IsSensitive(entries[0].key) then Failure(SensitiveField)
    else
      var first :- Remove(entries[0].value);
      var rest :- RemoveEntries(entries[1..]);
      Success(if entries[0].key == PROTO_KEY then rest else [Entry(entries[0].key, first)] + rest)
  }

  method RemoveEphemeralAndRejectSensitive(v: Value) returns (r: Result<Value, DigestError>)
    ensures r == Remove(v)
    decreases v
  {
    match v {
      case Arr(items) =>
        var kept: seq<Value> := [];
        PrependNothing(RemoveItems(items));
        assert items[0..] == items;
        for i := 0 to |items|
          invariant RemoveItems(items) == Prepend(kept, RemoveItems(items[i..]))
        {
          assert items[i..][0] == items[i] && items[i..][1..] == items[i + 1..];
          var item := RemoveEphemeralAndRejectSensitive(items[i]);
          if item.Failure? {
            return Failure(item.error);
          }
          PrependMore(kept, item.value, RemoveItems(items[i + 1..]));
          kept := kept + [item.value];
        }
        assert items[|items|..] == [] && kept + [] == kept;
        return Success(Arr(kept));
      case Obj(plain, entries) =>
        if !plain {
          return Failure(NotAJsonObject);
        }
        var result: seq<Entry> := [];
        PrependNothing(RemoveEntries(entries));
        assert entries[0..] == entries;
        for i := 0 to |entries|
          invariant RemoveEntries(entries) == Prepend(result, RemoveEntries(entries[i..]))
        {
          var key := entries[i].key;
          assert entries[i..][0] == entries[i] && entries[i..][1..] == entries[i + 1..];
          if IsConfirmation(key) {
            continue;
          }
          if IsSensitive(key) {
            return Failure(SensitiveField);
          }
          var kept := RemoveEphemeralAndRejectSensitive(entries[i].value);
          if kept.Failure? {
            return Failure(kept.error);
          }
          if key != PROTO_KEY {
            PrependMore(result, Entry(key, kept.value), RemoveEntries(entries[i + 1..]));
            result := result + [Entry(key, kept.value)];
          }
        }
        assert entries[|entries|..] == [] && result + [] == result;
        return Success(Obj(true, result));
      case _ =>
        return Success(v);
    }
  }

  function Prepend<T>(done: seq<T>, rest: Result<seq<T>, DigestError>): Result<seq<T>, DigestError> {
    match rest
    case Success(more) => Success(done + more)
    case Failure(e) => Failure(e)
  }

  lemma PrependNothing<T>(rest: Result<seq<T>, DigestError>)
    ensures Prepend([], rest) == rest
  {
    if rest.Success? {
      assert [] + rest.value == rest.value;
    }
  }

  lemma PrependMore<T>(done: seq<T>, x: T, rest: Result<seq<T>, DigestError>)
    ensures Prepend(done, Prepend([x], rest)) == Prepend(done + [x], rest)
  {
    if rest.Success? {
      assert done + ([x] + rest.value) == done + [x] + rest.value;
    }
  }

  // ---------------------------------------------------------------- what is kept

  /** Nothing outside the confirmation fields is refused. */
  predicate Clean(v: Value) {
    match v
    case Arr(items) => forall i | i in items :: Clean(i)
    case Obj(plain, entries) =>
      plain && forall e | e in entries && !IsConfirmation(e.key) :: !IsSensitive(e.key) && Clean(e.value)
    case _ => true
  }

  predicate Dropped(key: Str) {
    IsConfirmation(key) || key == PROTO_KEY
  }

  /** The value without its dropped members, at every depth. */
  function Strip(v: Value): Value
    decreases v, 1
  {
    match v
    case Arr(items) => Arr(StripItems(items))
    case Obj(plain, entries) => Obj(plain, StripEntries(entries))
    case _ => v
  }

  function StripItems(items: seq<Value>): (r: seq<Value>)
    ensures |r| == |items|
    decreases items, 0
  {
    if items == [] then [] else [Strip(items[0])] + StripItems(items[1..])
  }

  function StripEntries(entries: seq<Entry>): (r: seq<Entry>)
    ensures forall f | f in r :: exists e | e in entries :: e.key == f.key
    decreases entries, 0
  {
    if entries == [] then []
    else if Dropped(entries[0].key) then StripEntries(entries[1..])
    else [Entry(entries[0].key, Strip(entries[0].value))] + StripEntries(entries[1..])
  }

  /** The pass goes through exactly on clean values, and then leaves the stripped value. */
  lemma {:induction false} RemoveStrips(v: Value)
    ensures Remove(v).Success? <==> Clean(v)
    ensures Clean(v) ==> Remove(v).value == Strip(v)
    decreases v, 1
  {
    match v
    case Arr(items) => RemoveStripsItems(items);
    case Obj(_, entries) => RemoveStripsEntries(entries);
    case _ =>
  }

  lemma {:induction false} RemoveStripsItems(items: seq<Value>)
    ensures RemoveItems(items).Success? <==> forall i | i in items :: Clean(i)
    ensures RemoveItems(items).Success? ==> RemoveItems(items).value == StripItems(items)
    decreases items, 0
  {
    if items != [] {
      RemoveStrips(items[0]);
      RemoveStripsItems(items[1..]);
      assert items == [items[0]] + items[1..];
    }
  }

  lemma {:induction false} RemoveStripsEntries(entries: seq<Entry>)
    ensures RemoveEntries(entries).Success?
            <==> forall e | e in entries && !IsConfirmation(e.key) :: !IsSensitive(e.key) && Clean(e.value)
    ensures RemoveEntries(entries).Success? ==> RemoveEntries(entries).value == StripEntries(entries)
    decreases entries, 0
  {
    if entries != [] {
      RemoveStrips(entries[0].value);
      RemoveStripsEntries(entries[1..]);
      assert entries == [entries[0]] + entries[1..];
    }
  }

  lemma {:induction false} StripWellFormed(v: Value)
    requires WellFormed(v)
    ensures WellFormed(Strip(v))
    decreases v, 1
  {
    match v
    case Arr(items) => StripItemsWellFormed(items);
    case Obj(_, entries) => StripEntriesWellFormed(entries);
    case _ =>
  }

  lemma {:induction false} StripItemsWellFormed(items: seq<Value>)
    requires forall i | i in items :: WellFormed(i)
    ensures forall i | i in StripItems(items) :: WellFormed(i)
    decreases items, 0
  {
    if items != [] {
      StripWellFormed(items[0]);
      StripItemsWellFormed(items[1..]);
    }
  }

  lemma {:induction false} StripEntriesWellFormed(entries: seq<Entry>)
    requires forall e | e in entries :: WellFormed(e.value)
    requires DistinctKeys(entries)
    ensures forall e | e in StripEntries(entries) :: WellFormed(e.value)
    ensures DistinctKeys(StripEntries(entries))
    decreases entries, 0
  {
    if entries != [] {
      StripWellFormed(entries[0].value);
      StripEntriesWellFormed(entries[1..]);
      if !Dropped(entries[0].key) {
        var first, rest := Entry(entries[0].key, Strip(entries[0].value)), StripEntries(entries[1..]);
        KeyStaysAlone(entries);
        ConsDistinct(first, rest);
        assert StripEntries(entries) == [first] + rest;
      }
    }
  }

  lemma KeyStaysAlone(entries: seq<Entry>)
    requires entries != [] && DistinctKeys(entries)
    ensures forall f | f in StripEntries(entries[1..]) :: f.key != entries[0].key
  {
    forall f | f in StripEntries(entries[1..]) ensures f.key != entries[0].key {
      var e :| e in entries[1..] && e.key == f.key;
      var k :| 0 <= k < |entries[1..]| && entries[1..][k] == e;
      assert entries[k + 1] == e;
    }
  }

  lemma ConsDistinct(first: Entry, rest: seq<Entry>)
    requires DistinctKeys(rest) && forall f | f in rest :: f.key != first.key
    ensures DistinctKeys([first] + rest)
  {
  }

  // ---------------------------------------------------------------- the digested text

  function DigestText(v: Value): Result<Str, DigestError>
    requires WellFormed(v)
  {
    match Remove(v)
    case Failure(e) => Failure(e)
    case Success(kept) =>
      RemoveStrips(v);
      StripWellFormed(v);
      match Canonicalize(kept)
      case Success(text) => Success(text)
      case Failure(_) => Failure(NotPrintable)
  }

  /** A text is digested for exactly the clean values whose kept part is printable, and two
      of them share it exactly when their kept parts are equivalent. */
  lemma SameDigestExactlyWhenKeptEquivalent(a: Value, b: Value)
    requires WellFormed(a) && WellFormed(b)
    ensures DigestText(a).Success? <==> Clean(a) && Supported(Strip(a))
    ensures DigestText(a).Success? && DigestText(b).Success? ==>
              (DigestText(a) == DigestText(b) <==> Equivalent(Strip(a), Strip(b)))
  {
    RemoveStrips(a);
    RemoveStrips(b);
    StripWellFormed(a);
    StripWellFormed(b);
    SameTextExactlyWhenEquivalent(Strip(a), Strip(b));
    SameTextExactlyWhenEquivalent(Strip(b), Strip(a));
  }

  // ---------------------------------------------------------------- without confirmation fields

  /** The value without its confirmation fields, at every depth. */
  function Unconfirmed(v: Value): Value
    decreases v, 1
  {
    match v
    case Arr(items) => Arr(UnconfirmedItems(items))
    case Obj(plain, entries) => Obj(plain, UnconfirmedEntries(entries))
    case _ => v
  }

  function UnconfirmedItems(items: seq<Value>): seq<Value>
    decreases items, 0
  {
    if items == [] then [] else [Unconfirmed(items[0])] + UnconfirmedItems(items[1..])
  }

  function UnconfirmedEntries(entries: seq<Entry>): seq<Entry>
    decreases entries, 0
  {
    if entries == [] then []
    else if IsConfirmation(entries[0].key) then UnconfirmedEntries(entries[1..])
    else [Entry(entries[0].key, Unconfirmed(entries[0].value))] + UnconfirmedEntries(entries[1..])
  }

  /** No member under the prototype key, at any depth outside the confirmation fields. */
  predicate NoPrototypeMember(v: Value)
    decreases v, 1
  {
    match v
    case Arr(items) => forall i | i in items :: NoPrototypeMember(i)
    case Obj(_, entries) => NoPrototypeEntry(entries)
    case _ => true
  }

  predicate NoPrototypeEntry(entries: seq<Entry>)
    decreases entries, 0
  {
    forall e | e in entries && !IsConfirmation(e.key) :: e.key != PROTO_KEY && NoPrototypeMember(e.value)
  }

  /** The pass takes out the confirmation fields and nothing else exactly when no member it goes
      over is under the prototype key. */
  lemma {:induction false} StripsOnlyConfirmations(v: Value)
    ensures Strip(v) == Unconfirmed(v) <==> NoPrototypeMember(v)
    decreases v, 1
  {
    match v
    case Arr(items) => StripsOnlyItems(items);
    case Obj(_, entries) => StripsOnlyEntries(entries);
    case _ =>
  }

  lemma {:induction false} StripsOnlyItems(items: seq<Value>)
    ensures StripItems(items) == UnconfirmedItems(items) <==> forall i | i in items :: NoPrototypeMember(i)
    decreases items, 0
  {
    if items != [] {
      StripsOnlyConfirmations(items[0]);
      StripsOnlyItems(items[1..]);
      assert items == [items[0]] + items[1..];
      SameParts(Strip(items[0]), StripItems(items[1..]), Unconfirmed(items[0]), UnconfirmedItems(items[1..]));
    }
  }

  lemma SameParts<T>(x: T, xs: seq<T>, y: T, ys: seq<T>)
    ensures [x] + xs == [y] + ys <==> x == y && xs == ys
  {
    assert ([x] + xs)[0] == x && ([y] + ys)[0] == y;
    assert ([x] + xs)[1..] == xs && ([y] + ys)[1..] == ys;
  }

  lemma {:induction false} StripIsShorter(entries: seq<Entry>)
    ensures |StripEntries(entries)| <= |UnconfirmedEntries(entries)|
  {
    if entries != [] { StripIsShorter(entries[1..]); }
  }

  lemma {:induction false} StripsOnlyEntries(entries: seq<Entry>)
    ensures StripEntries(entries) == UnconfirmedEntries(entries) <==> NoPrototypeEntry(entries)
    decreases entries, 0
  {
    if entries != [] {
      var first, rest := entries[0], entries[1..];
      StripsOnlyConfirmations(first.value);
      StripsOnlyEntries(rest);
      StripIsShorter(rest);
      EntryParts(entries);
      SameParts(Entry(first.key, Strip(first.value)), StripEntries(rest),
        Entry(first.key, Unconfirmed(first.value)), UnconfirmedEntries(rest));
    }
  }

  lemma EntryParts(entries: seq<Entry>)
    requires entries != []
    ensures NoPrototypeEntry(entries) <==>
      && NoPrototypeEntry(entries[1..])
      && (!IsConfirmation(entries[0].key) ==> entries[0].key != PROTO_KEY && NoPrototypeMember(entries[0].value))
  {
    assert entries == [entries[0]] + entries[1..];
  }

  /** For a caller: without prototype members, values that are digested share their text exactly
      when they are equivalent outside confirmation fields. */
  lemma SameDigestExactlyWhenEquivalentUnconfirmed(a: Value, b: Value)
    requires WellFormed(a) && WellFormed(b) && NoPrototypeMember(a) && NoPrototypeMember(b)
    ensures DigestText(a).Success? <==> Clean(a) && Supported(Unconfirmed(a))
    ensures DigestText(a).Success? && DigestText(b).Success? ==>
              (DigestText(a) == DigestText(b) <==> Equivalent(Unconfirmed(a), Unconfirmed(b)))
  {
    StripsOnlyConfirmations(a);
    StripsOnlyConfirmations(b);
    SameDigestExactlyWhenKeptEquivalent(a, b);
  }

  /** `w` is `v` with confirmation fields, of any value, put in anywhere. */
  ghost predicate Inserted(v: Value, w: Value)
    decreases w, 1
  {
    match w
    case Arr(items) => v.Arr? && InsertedItems(v.items, items)
    case Obj(plain, entries) => v.Obj? && v.plain == plain && InsertedEntries(v.entries, entries)
    case _ => v == w
  }

  ghost predicate InsertedItems(vs: seq<Value>, ws: seq<Value>)
    decreases ws, 0
  {
    if ws == [] then vs == []
    else vs != [] && Inserted(vs[0], ws[0]) && InsertedItems(vs[1..], ws[1..])
  }

  ghost predicate InsertedEntries(vs: seq<Entry>, ws: seq<Entry>)
    decreases ws, 0
  {
    if ws == [] then vs == []
    else
      || (IsConfirmation(ws[0].key) && InsertedEntries(vs, ws[1..]))
      || (vs != [] && vs[0].key == ws[0].key && Inserted(vs[0].value, ws[0].value) && InsertedEntries(vs[1..], ws[1..]))
  }

  lemma {:induction false} RemoveForgets(v: Value, w: Value)
    requires Inserted(v, w)
    ensures Remove(v) == Remove(w)
    decreases w, 1
  {
    match w
    case Arr(items) => RemoveForgetsItems(v.items, items);
    case Obj(_, entries) => RemoveForgetsEntries(v.entries, entries);
    case _ =>
  }

  lemma {:induction false} RemoveForgetsItems(vs: seq<Value>, ws: seq<Value>)
    requires InsertedItems(vs, ws)
    ensures RemoveItems(vs) == RemoveItems(ws)
    decreases ws, 0
  {
    if ws != [] {
      RemoveForgets(vs[0], ws[0]);
      RemoveForgetsItems(vs[1..], ws[1..]);
    }
  }

  lemma {:induction false} RemoveForgetsEntries(vs: seq<Entry>, ws: seq<Entry>)
    requires InsertedEntries(vs, ws)
    ensures RemoveEntries(vs) == RemoveEntries(ws)
    decreases ws, 0
  {
    if ws != [] {
      if IsConfirmation(ws[0].key) && InsertedEntries(vs, ws[1..]) {
        RemoveForgetsEntries(vs, ws[1..]);
      } else {
        RemoveForgets(vs[0].value, ws[0].value);
        RemoveForgetsEntries(vs[1..], ws[1..]);
      }
    }
  }

  /** Putting confirmation fields in at any depth changes neither the digested text nor
      which error is raised. */
  lemma ConfirmationIdsDoNotCount(v: Value, w: Value)
    requires WellFormed(v) && WellFormed(w) && Inserted(v, w)
    ensures DigestText(v) == DigestText(w)
  {
    RemoveForgets(v, w);
  }

  lemma {:induction false} TooLongToInclude(s: Str, part: Str)
    requires |part| > |s|
    ensures !Includes(s, part)
  {
    if s != [] { TooLongToInclude(s[1..], part); }
  }

  lemma {:induction false} NormalizeAppend(a: Str, b: Str)
    ensures NormalizeKey(a + b) == NormalizeKey(a) + NormalizeKey(b)
  {
    if a == [] {
      assert a + b == b;
    } else {
      assert (a + b)[1..] == a[1..] + b;
      NormalizeAppend(a[1..], b);
      assert NormalizedUnit(a[0]) + (NormalizeKey(a[1..]) + NormalizeKey(b)) == NormalizeKey(a) + NormalizeKey(b);
    }
  }

  lemma NormalizeOne(c: CodeUnit)
    ensures NormalizeKey([c]) == NormalizedUnit(c)
  {
    assert [c][1..] == [];
    assert NormalizedUnit(c) + [] == NormalizedUnit(c);
  }

  lemma {:induction false} NormalizeShrinks(key: Str)
    ensures |NormalizeKey(key)| <= |key|
    ensures key != [] && NormalizedUnit(key[0]) == [] ==> NormalizeKey(key) == NormalizeKey(key[1..])
    ensures key != [] && NormalizedUnit(key[0]) != [] ==> NormalizeKey(key) != [] && NormalizeKey(key)[0] == NormalizedUnit(key[0])[0]
  {
    if key != [] { NormalizeShrinks(key[1..]); }
  }

  lemma ProtoKeyNormalized()
    ensures 0 < |NormalizeKey(PROTO_KEY)| <= 5 && NormalizeKey(PROTO_KEY)[0] == 0x70
  {
    var edge: Str, inner: Str := [0x5F] + [0x5F], [0x70, 0x72, 0x6F, 0x74, 0x6F];
    NormalizeAppend([0x5F], [0x5F]);
    NormalizeOne(0x5F);
    assert NormalizeKey(edge) == [];
    assert PROTO_KEY == edge + inner + edge;
    NormalizeAppend(edge + inner, edge);
    NormalizeAppend(edge, inner);
    NormalizeShrinks(inner);
  }

  /** A key that normalizes to at most five characters is sensitive only as the word token. */
  lemma ShortKeysAreHarmless(key: Str)
    requires 0 < |NormalizeKey(key)| <= 5 && NormalizeKey(key)[0] != 0x74
    ensures !IsConfirmation(key) && !IsSensitive(key)
  {
    var k := NormalizeKey(key);
    TooLongToInclude(k, Ascii("authorization"));
    TooLongToInclude(k, Ascii("credential"));
    TooLongToInclude(k, Ascii("password"));
    TooLongToInclude(k, Ascii("secret"));
    TooLongToInclude(k, Ascii("privatekey"));
    assert Ascii("token")[0] == 't' as int == 0x74;
  }

  lemma DroppedMemberStripped(key: Str, value: Value)
    requires Dropped(key)
    ensures Strip(Obj(true, [Entry(key, value)])) == Obj(true, [])
  {
    var entries := [Entry(key, value)];
    assert entries[1..] == [];
    assert StripEntries(entries) == StripEntries(entries[1..]) == [];
  }

  lemma HarmlessMemberClean(key: Str, value: Value)
    requires !IsSensitive(key) && Clean(value)
    ensures Clean(Obj(true, [Entry(key, value)]))
  {
  }

  lemma EmptyObject()
    ensures var empty := Obj(true, []);
            WellFormed(empty) && Strip(empty) == empty && Clean(empty) && Supported(empty) && Equivalent(empty, empty)
  {
  }

  lemma DefinedMemberIsSeen(key: Str, value: Value)
    requires value != Undefined
    ensures !Equivalent(Obj(true, [Entry(key, value)]), Obj(true, []))
  {
    var v, empty := Obj(true, [Entry(key, value)]), Obj(true, []);
    assert v.entries[0].value != Undefined && !FoundIn(v.entries[0], empty);
  }

  lemma DroppedMemberLeavesNoTrace(key: Str, value: Value)
    requires Dropped(key) && !IsSensitive(key) && Clean(value) && WellFormed(value)
    ensures var v, empty := Obj(true, [Entry(key, value)]), Obj(true, []);
            WellFormed(v) && WellFormed(empty) && DigestText(v).Success? && DigestText(v) == DigestText(empty)
  {
    var v, empty := Obj(true, [Entry(key, value)]), Obj(true, []);
    EmptyObject();
    DroppedMemberStripped(key, value);
    HarmlessMemberClean(key, value);
    SameDigestExactlyWhenKeptEquivalent(v, empty);
    SameDigestExactlyWhenKeptEquivalent(empty, v);
  }

  /** A member under the prototype key leaves no trace in the text either, so the text does
      not tell all values apart that differ outside confirmation fields. */
  lemma PrototypeMemberLeavesNoTrace(b: bool)
    ensures var v, empty := Obj(true, [Entry(PROTO_KEY, Boolean(b))]), Obj(true, []);
            WellFormed(v) && WellFormed(empty) && !Equivalent(v, empty)
            && DigestText(v).Success? && DigestText(v) == DigestText(empty)
  {
    ProtoKeyNormalized();
    ShortKeysAreHarmless(PROTO_KEY);
    DefinedMemberIsSeen(PROTO_KEY, Boolean(b));
    DroppedMemberLeavesNoTrace(PROTO_KEY, Boolean(b));
  }
}
