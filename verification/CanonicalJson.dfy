/** Canonical JSON (browser-idempotency.ts): the text under a fingerprint, and exactly
    which values share one. */
module CanonicalJson {
  import opened Text
  import opened JsonText

  /** A JavaScript value as the printer meets it. `plain` says whether an object's
      prototype is the default one or null; `Unsupported` covers functions, symbols and
      big integers. Object entries stand in property order. */
  datatype Value =
    | Undefined
    | Null
    | Boolean(b: bool)
    | Num(n: Number)
    | NonFinite
    | Chars(s: Str)
    | Arr(items: seq<Value>)
    | Obj(plain: bool, entries: seq<Entry>)
    | Unsupported

  datatype Entry = Entry(key: Str, value: Value)

  datatype JsonError = NotSupported

  const NULL_TEXT: Str := [0x6E, 0x75, 0x6C, 0x6C]
  const TRUE_TEXT: Str := [0x74, 0x72, 0x75, 0x65]
  const FALSE_TEXT: Str := [0x66, 0x61, 0x6C, 0x73, 0x65]
  const COMMA: CodeUnit := 0x2C
  const COLON: CodeUnit := 0x3A
  const OPEN_BRACKET: CodeUnit := 0x5B
  const CLOSE_BRACKET: CodeUnit := 0x5D
  const OPEN_BRACE: CodeUnit := 0x7B
  const CLOSE_BRACE: CodeUnit := 0x7D

  /** What a JavaScript runtime can hold: numbers in canonical decimal form and objects
      with one property per key. */
  ghost predicate WellFormed(v: Value) {
    match v
    case Num(n) => Canonical(n)
    case Arr(items) => forall i | i in items :: WellFormed(i)
    case Obj(_, entries) =>
      && (forall e | e in entries :: WellFormed(e.value))
      && DistinctKeys(entries)
    case _ => true
  }

  ghost predicate DistinctKeys(entries: seq<Entry>) {
    forall i, j | 0 <= i < j < |entries| :: entries[i].key != entries[j].key
  }

  // ---------------------------------------------------------------- key order

  /** JavaScript's `<` on strings: by code unit, a proper prefix first. */
  predicate Less(a: Str, b: Str) {
    b != [] && (a == [] || a[0] < b[0] || (a[0] == b[0] && Less(a[1..], b[1..])))
  }

  lemma {:induction false} LessTotal(a: Str, b: Str)
    ensures Less(a, b) || Less(b, a) || a == b
    ensures !(Less(a, b) && Less(b, a)) && !Less(a, a)
  {
    if a != [] { LessIrreflexive(a); }
    if a != [] && b != [] && a[0] == b[0] {
      LessTotal(a[1..], b[1..]);
      assert a == [a[0]] + a[1..] && b == [b[0]] + b[1..];
    }
  }

  lemma {:induction false} LessIrreflexive(a: Str)
    ensures !Less(a, a)
  {
    if a != [] { LessIrreflexive(a[1..]); }
  }

  lemma {:induction false} LessTransitive(a: Str, b: Str, c: Str)
    requires Less(a, b) && Less(b, c)
    ensures Less(a, c)
  {
    if a != [] && a[0] == b[0] && b[0] == c[0] {
      LessTransitive(a[1..], b[1..], c[1..]);
    }
  }

  /** The defined entries in key order, as filter and sort leave them. */
  function Insert(e: Entry, sorted: seq<Entry>): (r: seq<Entry>)
    ensures forall x :: x in r <==> x == e || x in sorted
  {
    if sorted == [] || !Less(sorted[0].key, e.key) then [e] + sorted
    else
      var r := [sorted[0]] + Insert(e, sorted[1..]);
      assert sorted == [sorted[0]] + sorted[1..];
      r
  }

  function Sorted(entries: seq<Entry>): (r: seq<Entry>)
    ensures forall x :: x in r <==> x in entries && x.value != Undefined
  {
    if entries == [] then []
    else if entries[0].value == Undefined then Sorted(entries[1..])
    else Insert(entries[0], Sorted(entries[1..]))
  }

  // ---------------------------------------------------------------- the printer

  /** An entry's value is a part of its object, wherever sorting has put the entry. */
  lemma EntryBelow(owner: Value, e: Entry)
    requires owner.Obj? && e in owner.entries
    ensures e.value < owner
  {
    var i :| 0 <= i < |owner.entries| && owner.entries[i] == e;
    assert owner.entries[i].value < owner;
  }

  function Canonicalize(v: Value): Result<Str, JsonError>
    requires WellFormed(v)
    decreases v, 1
  {
    match v
    case Null => Success(NULL_TEXT)
    case Chars(s) => Success(Quote(s))
    case Boolean(b) => Success(if b then TRUE_TEXT else FALSE_TEXT)
    case NonFinite => Failure(NotSupported)
    case Num(n) => Success(NumberText(n))
    case Undefined => Success(NULL_TEXT)
    case Arr(items) =>
      var inner :- ItemTexts(items);
      Success([OPEN_BRACKET] + inner + [CLOSE_BRACKET])
    case Obj(_, entries) =>
      var inner :- MemberTexts(v, Sorted(entries));
      Success([OPEN_BRACE] + inner + [CLOSE_BRACE])
    case Unsupported => Failure(NotSupported)
  }

  function ItemTexts(items: seq<Value>): Result<Str, JsonError>
    requires forall i | i in items :: WellFormed(i)
    decreases items, 0
  {
    if items == [] then Success([])
    else
      var first :- Canonicalize(items[0]);
      var rest :- ItemTexts(items[1..]);
      Success(if |items| == 1 then first else first + [COMMA] + rest)
  }

  function MemberTexts(owner: Value, sorted: seq<Entry>): Result<Str, JsonError>
    requires owner.Obj? && WellFormed(owner) && forall e | e in sorted :: e in owner.entries
    decreases owner, 0, |sorted|
  {
    if sorted == [] then Success([])
    else
      EntryBelow(owner, sorted[0]);
      var first :- Canonicalize(sorted[0].value);
      var rest :- MemberTexts(owner, sorted[1..]);
      var member := Quote(sorted[0].key) + [COLON] + first;
      Success(if |sorted| == 1 then member else member + [COMMA] + rest)
  }

  // ---------------------------------------------------------------- normal forms

  /** What is left of a value once everything the text does not show is gone. */
  datatype Tree =
    | TNull
    | TBoolean(b: bool)
    | TNum(n: Number)
    | TChars(s: Str)
    | TArr(items: seq<Tree>)
    | TObj(members: seq<Member>)

  datatype Member = Member(key: Str, tree: Tree)

  predicate Supported(v: Value) {
    match v
    case NonFinite => false
    case Unsupported => false
    case Arr(items) => forall i | i in items :: Supported(i)
    case Obj(_, entries) => forall e | e in entries :: Supported(e.value)
    case _ => true
  }

  function Norm(v: Value): Tree
    decreases v, 1
  {
    match v
    case Boolean(b) => TBoolean(b)
    case Num(n) => TNum(if n.Zero? then Zero(false) else n)
    case Chars(s) => TChars(s)
    case Arr(items) => TArr(NormItems(items))
    case Obj(_, entries) => TObj(NormMembers(v, Sorted(entries)))
    case _ => TNull
  }

  function NormItems(items: seq<Value>): (r: seq<Tree>)
    ensures |r| == |items|
    decreases items, 0
  {
    if items == [] then [] else [Norm(items[0])] + NormItems(items[1..])
  }

  function NormMembers(owner: Value, sorted: seq<Entry>): (r: seq<Member>)
    requires owner.Obj? && forall e | e in sorted :: e in owner.entries
    ensures |r| == |sorted|
    decreases owner, 0, |sorted|
  {
    if sorted == [] then []
    else
      EntryBelow(owner, sorted[0]);
      [Member(sorted[0].key, Norm(sorted[0].value))] + NormMembers(owner, sorted[1..])
  }

  ghost predicate WellFormedTree(t: Tree) {
    match t
    case TNum(n) => Canonical(n) && n != Zero(true)
    case TArr(items) => forall i | i in items :: WellFormedTree(i)
    case TObj(members) => forall m | m in members :: WellFormedTree(m.tree)
    case _ => true
  }

  function Print(t: Tree): Str
    requires WellFormedTree(t)
    decreases t, 1
  {
    match t
    case TNull => NULL_TEXT
    case TBoolean(b) => if b then TRUE_TEXT else FALSE_TEXT
    case TNum(n) => NumberText(n)
    case TChars(s) => Quote(s)
    case TArr(items) => [OPEN_BRACKET] + PrintItems(items) + [CLOSE_BRACKET]
    case TObj(members) => [OPEN_BRACE] + PrintMembers(members) + [CLOSE_BRACE]
  }

  function PrintItems(items: seq<Tree>): Str
    requires forall i | i in items :: WellFormedTree(i)
    decreases items, 0
  {
    if items == [] then []
    else if |items| == 1 then Print(items[0])
    else Print(items[0]) + [COMMA] + PrintItems(items[1..])
  }

  function PrintMember(m: Member): Str
    requires WellFormedTree(m.tree)
    decreases m, 2
  {
    Quote(m.key) + [COLON] + Print(m.tree)
  }

  function PrintMembers(members: seq<Member>): Str
    requires forall m | m in members :: WellFormedTree(m.tree)
    decreases members, 0
  {
    if members == [] then []
    else if |members| == 1 then PrintMember(members[0])
    else PrintMember(members[0]) + [COMMA] + PrintMembers(members[1..])
  }

  // ---------------------------------------------------------------- printer and normal form agree

  lemma {:induction false} NormWellFormed(v: Value)
    requires WellFormed(v)
    ensures WellFormedTree(Norm(v))
    decreases v, 1
  {
    match v
    case Arr(items) => NormItemsWellFormed(items);
    case Obj(_, entries) => NormMembersWellFormed(v, Sorted(entries));
    case _ =>
  }

  lemma {:induction false} NormItemsWellFormed(items: seq<Value>)
    requires forall i | i in items :: WellFormed(i)
    ensures forall t | t in NormItems(items) :: WellFormedTree(t)
    decreases items, 0
  {
    if items != [] {
      NormWellFormed(items[0]);
      NormItemsWellFormed(items[1..]);
    }
  }

  lemma {:induction false} NormMembersWellFormed(owner: Value, sorted: seq<Entry>)
    requires owner.Obj? && WellFormed(owner) && forall e | e in sorted :: e in owner.entries
    ensures forall m | m in NormMembers(owner, sorted) :: WellFormedTree(m.tree)
    decreases owner, 0, |sorted|
  {
    if sorted != [] {
      EntryBelow(owner, sorted[0]);
      NormWellFormed(sorted[0].value);
      NormMembersWellFormed(owner, sorted[1..]);
    }
  }

  /** The text of a supported value is the text of its normal form; an unsupported part
      anywhere but in a dropped place makes the printer throw. */
  lemma {:induction false} PrintsNormalForm(v: Value)
    requires WellFormed(v)
    ensures WellFormedTree(Norm(v))
    ensures Canonicalize(v) == if Supported(v) then Success(Print(Norm(v))) else Failure(NotSupported)
    decreases v, 1
  {
    NormWellFormed(v);
    match v
    case Arr(items) => PrintsItems(items);
    case Obj(_, entries) => PrintsMembers(v, Sorted(entries));
    case _ =>
  }

  lemma {:induction false} PrintsItems(items: seq<Value>)
    requires forall i | i in items :: WellFormed(i)
    ensures forall t | t in NormItems(items) :: WellFormedTree(t)
    ensures ItemTexts(items)
         == if forall i | i in items :: Supported(i) then Success(PrintItems(NormItems(items))) else Failure(NotSupported)
    decreases items, 0
  {
    NormItemsWellFormed(items);
    if items != [] {
      PrintsNormalForm(items[0]);
      PrintsItems(items[1..]);
      assert items == [items[0]] + items[1..];
      assert NormItems(items)[1..] == NormItems(items[1..]);
    }
  }

  lemma {:induction false} PrintsMembers(owner: Value, sorted: seq<Entry>)
    requires owner.Obj? && WellFormed(owner) && forall e | e in sorted :: e in owner.entries
    ensures forall m | m in NormMembers(owner, sorted) :: WellFormedTree(m.tree)
    ensures MemberTexts(owner, sorted)
         == if forall e | e in sorted :: Supported(e.value) then Success(PrintMembers(NormMembers(owner, sorted))) else Failure(NotSupported)
    decreases owner, 0, |sorted|
  {
    NormMembersWellFormed(owner, sorted);
    if sorted != [] {
      EntryBelow(owner, sorted[0]);
      PrintsNormalForm(sorted[0].value);
      PrintsMembers(owner, sorted[1..]);
      assert sorted == [sorted[0]] + sorted[1..];
      assert NormMembers(owner, sorted)[1..] == NormMembers(owner, sorted[1..]);
    }
  }

  // ---------------------------------------------------------------- unique readability

  /** What may follow a printed value inside a larger text. */
  predicate Stop(rest: Str) {
    rest == [] || rest[0] == COMMA || rest[0] == CLOSE_BRACKET || rest[0] == CLOSE_BRACE
  }

  /** The kind of value a first code unit announces. */
  function Kind(c: CodeUnit): nat {
    if c == 0x6E then 0
    else if c == 0x74 then 1
    else if c == 0x66 then 2
    else if NumberUnit(c) then 3
    else if c == QUOTE then 4
    else if c == OPEN_BRACKET then 5
    else if c == OPEN_BRACE then 6
    else 7
  }

  function KindOf(t: Tree): nat {
    match t
    case TNull => 0
    case TBoolean(b) => if b then 1 else 2
    case TNum(_) => 3
    case TChars(_) => 4
    case TArr(_) => 5
    case TObj(_) => 6
  }

  lemma NumberTextUnits(n: Number)
    requires Canonical(n)
    ensures NumberText(n) != [] && NumberUnits(NumberText(n))
  {
    if n.Decimal? {
      MagnitudeUnits(n.digits, n.point);
      NumberUnitsAppend(if n.minus then [MINUS] else [], Magnitude(n.digits, n.point));
    }
  }

  lemma PrintHead(t: Tree)
    requires WellFormedTree(t)
    ensures Print(t) != [] && Kind(Print(t)[0]) == KindOf(t) && Print(t)[0] != CLOSE_BRACKET
  {
    if t.TNum? { NumberTextUnits(t.n); }
  }

  lemma NotShorter(x: Str, y: Str, restX: Str, restY: Str)
    requires NumberUnits(y) && Stop(restX) && x + restX == y + restY
    ensures |x| >= |y|
  {
    assert forall i | 0 <= i < |y| :: (x + restX)[i] == y[i];
    assert restX != [] ==> (x + restX)[|x|] == restX[0];
    assert |x| + |restX| == |x + restX| == |y| + |restY|;
  }

  /** Number texts end where their units end. */
  lemma NumberSpan(x: Str, y: Str, restX: Str, restY: Str)
    requires NumberUnits(x) && NumberUnits(y) && Stop(restX) && Stop(restY) && x + restX == y + restY
    ensures x == y && restX == restY
  {
    NotShorter(x, y, restX, restY);
    NotShorter(y, x, restY, restX);
    assert (x + restX)[..|x|] == x && (y + restY)[..|y|] == y;
    assert (x + restX)[|x|..] == restX && (y + restY)[|y|..] == restY;
  }

  lemma ArrayInside(items: seq<Tree>, rest: Str)
    requires WellFormedTree(TArr(items))
    ensures (Print(TArr(items)) + rest)[1..] == PrintItems(items) + ([CLOSE_BRACKET] + rest)
  {
  }

  lemma ObjectInside(members: seq<Member>, rest: Str)
    requires WellFormedTree(TObj(members))
    ensures (Print(TObj(members)) + rest)[1..] == PrintMembers(members) + ([CLOSE_BRACE] + rest)
  {
  }

  lemma SameKind(a: Tree, b: Tree, restA: Str, restB: Str)
    requires WellFormedTree(a) && WellFormedTree(b)
    requires Print(a) + restA == Print(b) + restB
    ensures KindOf(a) == KindOf(b)
  {
    PrintHead(a);
    PrintHead(b);
    assert (Print(a) + restA)[0] == Print(a)[0];
    assert (Print(b) + restB)[0] == Print(b)[0];
  }

  lemma SameFixed(text: Str, restA: Str, restB: Str)
    requires text + restA == text + restB
    ensures restA == restB
  {
    assert (text + restA)[|text|..] == restA && (text + restB)[|text|..] == restB;
  }

  lemma NumberTreesUnique(a: Number, b: Number, restA: Str, restB: Str)
    requires WellFormedTree(TNum(a)) && WellFormedTree(TNum(b)) && Stop(restA) && Stop(restB)
    requires NumberText(a) + restA == NumberText(b) + restB
    ensures a == b && restA == restB
  {
    NumberTextUnits(a);
    NumberTextUnits(b);
    NumberSpan(NumberText(a), NumberText(b), restA, restB);
    NumberInjective(a, b);
  }

  /** Equal texts, followed by anything that may follow, come from the same normal form. */
  lemma {:induction false} PrintUnique(a: Tree, b: Tree, restA: Str, restB: Str)
    requires WellFormedTree(a) && WellFormedTree(b) && Stop(restA) && Stop(restB)
    requires Print(a) + restA == Print(b) + restB
    ensures a == b && restA == restB
    decreases a, 1
  {
    SameKind(a, b, restA, restB);
    match a
    case TNull => SameFixed(NULL_TEXT, restA, restB);
    case TBoolean(_) => SameFixed(Print(a), restA, restB);
    case TNum(n) => NumberTreesUnique(n, b.n, restA, restB);
    case TChars(s) => QuoteUnique(s, b.s, restA, restB);
    case TArr(items) =>
      ArrayInside(items, restA);
      ArrayInside(b.items, restB);
      ItemsUnique(items, b.items, [CLOSE_BRACKET] + restA, [CLOSE_BRACKET] + restB);
      SameFixed([CLOSE_BRACKET], restA, restB);
    case TObj(members) =>
      ObjectInside(members, restA);
      ObjectInside(b.members, restB);
      MembersUnique(members, b.members, [CLOSE_BRACE] + restA, [CLOSE_BRACE] + restB);
      SameFixed([CLOSE_BRACE], restA, restB);
  }

  /** What follows the first item of a non-empty list. */
  function AfterItem(items: seq<Tree>, rest: Str): Str
    requires |items| > 0 && forall i | i in items :: WellFormedTree(i)
  {
    if |items| == 1 then rest else [COMMA] + (PrintItems(items[1..]) + rest)
  }

  lemma RegroupComma(first: Str, more: Str, rest: Str)
    ensures first + [COMMA] + more + rest == first + ([COMMA] + (more + rest))
  {
  }

  lemma ItemsUnfold(items: seq<Tree>)
    requires |items| > 1 && forall i | i in items :: WellFormedTree(i)
    ensures PrintItems(items) == Print(items[0]) + [COMMA] + PrintItems(items[1..])
  {
  }

  lemma ItemsHead(items: seq<Tree>, rest: Str)
    requires |items| > 0 && forall i | i in items :: WellFormedTree(i)
    ensures PrintItems(items) + rest == Print(items[0]) + AfterItem(items, rest)
    ensures PrintItems(items) != [] && PrintItems(items)[0] != CLOSE_BRACKET
  {
    PrintHead(items[0]);
    if |items| > 1 {
      ItemsUnfold(items);
      RegroupComma(Print(items[0]), PrintItems(items[1..]), rest);
    }
  }

  /** Equal continuations: both lists end here or both go on, and then alike. */
  lemma AfterItemUnique(a: seq<Tree>, b: seq<Tree>, restA: Str, restB: Str)
    requires |a| > 0 && forall t | t in a :: WellFormedTree(t)
    requires |b| > 0 && forall t | t in b :: WellFormedTree(t)
    requires restA != [] && restA[0] == CLOSE_BRACKET && restB != [] && restB[0] == CLOSE_BRACKET
    requires AfterItem(a, restA) == AfterItem(b, restB)
    ensures |a| == 1 <==> |b| == 1
    ensures |a| == 1 ==> restA == restB
    ensures |a| > 1 ==> PrintItems(a[1..]) + restA == PrintItems(b[1..]) + restB
  {
    assert AfterItem(a, restA)[0] == if |a| == 1 then CLOSE_BRACKET else COMMA;
    assert AfterItem(b, restB)[0] == if |b| == 1 then CLOSE_BRACKET else COMMA;
    if |a| > 1 {
      SameFixed([COMMA], PrintItems(a[1..]) + restA, PrintItems(b[1..]) + restB);
    }
  }

  /** The closing bracket comes at once exactly when the list is empty. */
  lemma ItemsClose(items: seq<Tree>, rest: Str)
    requires forall i | i in items :: WellFormedTree(i)
    requires rest != [] && rest[0] == CLOSE_BRACKET
    ensures (PrintItems(items) + rest)[0] == CLOSE_BRACKET <==> items == []
  {
    if items != [] { ItemsHead(items, rest); }
  }

  lemma {:induction false} ItemsUnique(a: seq<Tree>, b: seq<Tree>, restA: Str, restB: Str)
    requires forall t | t in a :: WellFormedTree(t)
    requires forall t | t in b :: WellFormedTree(t)
    requires restA != [] && restA[0] == CLOSE_BRACKET && restB != [] && restB[0] == CLOSE_BRACKET
    requires PrintItems(a) + restA == PrintItems(b) + restB
    ensures a == b && restA == restB
    decreases a, 0
  {
    ItemsClose(a, restA);
    ItemsClose(b, restB);
    if a == [] {
      SameFixed([], restA, restB);
    } else {
      ItemsHead(a, restA);
      ItemsHead(b, restB);
      PrintUnique(a[0], b[0], AfterItem(a, restA), AfterItem(b, restB));
      AfterItemUnique(a, b, restA, restB);
      if |a| > 1 {
        ItemsUnique(a[1..], b[1..], restA, restB);
      }
      assert a == [a[0]] + a[1..] && b == [b[0]] + b[1..];
    }
  }

  function AfterMember(members: seq<Member>, rest: Str): Str
    requires |members| > 0 && forall m | m in members :: WellFormedTree(m.tree)
  {
    if |members| == 1 then rest else [COMMA] + (PrintMembers(members[1..]) + rest)
  }

  lemma MembersHead(members: seq<Member>, rest: Str)
    requires |members| > 0 && forall m | m in members :: WellFormedTree(m.tree)
    ensures PrintMembers(members) + rest == PrintMember(members[0]) + AfterMember(members, rest)
    ensures PrintMembers(members) != [] && PrintMembers(members)[0] == QUOTE
  {
    var first, whole := PrintMember(members[0]), PrintMembers(members);
    assert first[0] == QUOTE;
    if |members| > 1 {
      var more := PrintMembers(members[1..]);
      assert whole == first + [COMMA] + more;
      RegroupComma(first, more, rest);
    }
  }

  lemma AfterMemberUnique(a: seq<Member>, b: seq<Member>, restA: Str, restB: Str)
    requires |a| > 0 && forall m | m in a :: WellFormedTree(m.tree)
    requires |b| > 0 && forall m | m in b :: WellFormedTree(m.tree)
    requires restA != [] && restA[0] == CLOSE_BRACE && restB != [] && restB[0] == CLOSE_BRACE
    requires AfterMember(a, restA) == AfterMember(b, restB)
    ensures |a| == 1 <==> |b| == 1
    ensures |a| == 1 ==> restA == restB
    ensures |a| > 1 ==> PrintMembers(a[1..]) + restA == PrintMembers(b[1..]) + restB
  {
    assert AfterMember(a, restA)[0] == if |a| == 1 then CLOSE_BRACE else COMMA;
    assert AfterMember(b, restB)[0] == if |b| == 1 then CLOSE_BRACE else COMMA;
    if |a| > 1 {
      SameFixed([COMMA], PrintMembers(a[1..]) + restA, PrintMembers(b[1..]) + restB);
    }
  }

  lemma MemberParts(m: Member, rest: Str)
    requires WellFormedTree(m.tree)
    ensures PrintMember(m) + rest == Quote(m.key) + ([COLON] + (Print(m.tree) + rest))
  {
    var key, text := Quote(m.key), Print(m.tree);
    assert key + [COLON] + text + rest == key + ([COLON] + (text + rest));
  }

  lemma {:induction false} MemberUnique(a: Member, b: Member, restA: Str, restB: Str)
    requires WellFormedTree(a.tree) && WellFormedTree(b.tree) && Stop(restA) && Stop(restB)
    requires PrintMember(a) + restA == PrintMember(b) + restB
    ensures a == b && restA == restB
    decreases a, 2
  {
    MemberParts(a, restA);
    MemberParts(b, restB);
    QuoteUnique(a.key, b.key, [COLON] + (Print(a.tree) + restA), [COLON] + (Print(b.tree) + restB));
    SameFixed([COLON], Print(a.tree) + restA, Print(b.tree) + restB);
    PrintUnique(a.tree, b.tree, restA, restB);
  }

  lemma MembersClose(members: seq<Member>, rest: Str)
    requires forall m | m in members :: WellFormedTree(m.tree)
    requires rest != [] && rest[0] == CLOSE_BRACE
    ensures (PrintMembers(members) + rest)[0] == CLOSE_BRACE <==> members == []
  {
    if members != [] { MembersHead(members, rest); }
  }

  lemma {:induction false} MembersUnique(a: seq<Member>, b: seq<Member>, restA: Str, restB: Str)
    requires forall m | m in a :: WellFormedTree(m.tree)
    requires forall m | m in b :: WellFormedTree(m.tree)
    requires restA != [] && restA[0] == CLOSE_BRACE && restB != [] && restB[0] == CLOSE_BRACE
    requires PrintMembers(a) + restA == PrintMembers(b) + restB
    ensures a == b && restA == restB
    decreases a, 0
  {
    MembersClose(a, restA);
    MembersClose(b, restB);
    if a == [] {
      SameFixed([], restA, restB);
    } else {
      MembersHead(a, restA);
      MembersHead(b, restB);
      MemberUnique(a[0], b[0], AfterMember(a, restA), AfterMember(b, restB));
      AfterMemberUnique(a, b, restA, restB);
      if |a| > 1 {
        MembersUnique(a[1..], b[1..], restA, restB);
      }
      assert a == [a[0]] + a[1..] && b == [b[0]] + b[1..];
    }
  }

  // ---------------------------------------------------------------- equivalence

  /** Equal up to what the text does not show: the order of keys, members that are
      undefined, undefined instead of null elsewhere, and the sign of zero. */
  ghost predicate Equivalent(a: Value, b: Value)
    decreases a, 1
  {
    match a
    case Undefined => b == Undefined || b == Null
    case Null => b == Undefined || b == Null
    case Boolean(_) => b == a
    case Num(n) => b == a || (n.Zero? && b.Num? && b.n.Zero?)
    case Chars(_) => b == a
    case Arr(items) =>
      b.Arr? && |items| == |b.items| && forall i | 0 <= i < |items| :: Equivalent(items[i], b.items[i])
    case Obj(_, entries) =>
      && b.Obj?
      && (forall i | 0 <= i < |entries| && entries[i].value != Undefined :: FoundIn(entries[i], b))
      && (forall j | 0 <= j < |b.entries| && b.entries[j].value != Undefined :: Holds(a, b.entries[j]))
    case _ => false
  }

  /** `b` defines an equivalent entry of the same key. */
  ghost predicate FoundIn(e: Entry, b: Value)
    requires b.Obj?
    decreases e, 2
  {
    exists j | 0 <= j < |b.entries| ::
      b.entries[j].key == e.key && b.entries[j].value != Undefined && Equivalent(e.value, b.entries[j].value)
  }

  ghost predicate Holds(a: Value, f: Entry)
    requires a.Obj?
    decreases a, 0
  {
    exists i | 0 <= i < |a.entries| ::
      a.entries[i].key == f.key && a.entries[i].value != Undefined && Equivalent(a.entries[i].value, f.value)
  }

  ghost predicate KeysAscend(members: seq<Member>) {
    forall i, j | 0 <= i < j < |members| :: Less(members[i].key, members[j].key)
  }

  ghost predicate EntriesAscend(sorted: seq<Entry>) {
    forall i, j | 0 <= i < j < |sorted| :: Less(sorted[i].key, sorted[j].key)
  }

  lemma {:induction false} InsertAscends(e: Entry, sorted: seq<Entry>)
    requires EntriesAscend(sorted) && forall x | x in sorted :: x.key != e.key
    ensures EntriesAscend(Insert(e, sorted))
  {
    if sorted != [] {
      LessTotal(sorted[0].key, e.key);
      if Less(sorted[0].key, e.key) {
        InsertAscends(e, sorted[1..]);
        var rest := Insert(e, sorted[1..]);
        forall j | 0 <= j < |rest| ensures Less(sorted[0].key, rest[j].key) {
          assert rest[j] in rest;
          if rest[j] != e {
            var k :| 0 <= k < |sorted[1..]| && sorted[1..][k] == rest[j];
            assert sorted[k + 1] == rest[j];
          }
        }
      } else {
        forall j | 0 <= j < |sorted| ensures Less(e.key, sorted[j].key) {
          if j > 0 { LessTransitive(e.key, sorted[0].key, sorted[j].key); }
        }
      }
    }
  }

  lemma {:induction false} SortedAscends(entries: seq<Entry>)
    requires DistinctKeys(entries)
    ensures EntriesAscend(Sorted(entries))
  {
    if entries != [] {
      SortedAscends(entries[1..]);
      forall x | x in Sorted(entries[1..]) ensures x.key != entries[0].key {
        assert x in entries[1..];
        var k :| 0 <= k < |entries[1..]| && entries[1..][k] == x;
        assert entries[k + 1] == x;
      }
      if entries[0].value != Undefined {
        InsertAscends(entries[0], Sorted(entries[1..]));
      }
    }
  }

  lemma {:induction false} NormMembersAt(owner: Value, sorted: seq<Entry>, i: nat)
    requires owner.Obj? && forall e | e in sorted :: e in owner.entries
    requires i < |sorted|
    ensures NormMembers(owner, sorted)[i] == Member(sorted[i].key, Norm(sorted[i].value))
  {
    if i > 0 {
      NormMembersAt(owner, sorted[1..], i - 1);
    }
  }

  lemma {:induction false} NormItemsAt(items: seq<Value>, i: nat)
    requires i < |items|
    ensures NormItems(items)[i] == Norm(items[i])
  {
    if i > 0 { NormItemsAt(items[1..], i - 1); }
  }

  function Members(v: Value): seq<Member>
    requires v.Obj?
  {
    NormMembers(v, Sorted(v.entries))
  }

  /** The members of an object's normal form: ascending keys, one per defined entry. */
  lemma MembersOf(v: Value)
    requires v.Obj? && WellFormed(v)
    ensures KeysAscend(Members(v))
    ensures forall m | m in Members(v) ::
              exists i | 0 <= i < |v.entries| :: v.entries[i].value != Undefined && m == Member(v.entries[i].key, Norm(v.entries[i].value))
    ensures forall i | 0 <= i < |v.entries| && v.entries[i].value != Undefined ::
              Member(v.entries[i].key, Norm(v.entries[i].value)) in Members(v)
  {
    var sorted := Sorted(v.entries);
    SortedAscends(v.entries);
    forall k | 0 <= k < |sorted| ensures Members(v)[k] == Member(sorted[k].key, Norm(sorted[k].value)) {
      NormMembersAt(v, sorted, k);
    }
    forall m | m in Members(v)
      ensures exists i | 0 <= i < |v.entries| :: v.entries[i].value != Undefined && m == Member(v.entries[i].key, Norm(v.entries[i].value))
    {
      var k :| 0 <= k < |sorted| && Members(v)[k] == m;
      assert sorted[k] in sorted;
      var i :| 0 <= i < |v.entries| && v.entries[i] == sorted[k];
    }
    forall i | 0 <= i < |v.entries| && v.entries[i].value != Undefined
      ensures Member(v.entries[i].key, Norm(v.entries[i].value)) in Members(v)
    {
      assert v.entries[i] in sorted;
      var k :| 0 <= k < |sorted| && sorted[k] == v.entries[i];
      assert Members(v)[k] in Members(v);
    }
  }

  /** Ascending lists with the same elements are the same list. */
  lemma {:induction false} AscendingUnique(a: seq<Member>, b: seq<Member>)
    requires KeysAscend(a) && KeysAscend(b)
    requires forall m :: m in a <==> m in b
    ensures a == b
    decreases |a|
  {
    assert b != [] ==> b[0] in b;
    if a != [] {
      assert a[0] in a && a[0] in b;
      var j :| 0 <= j < |b| && b[j] == a[0];
      assert b[0] in a;
      var i :| 0 <= i < |a| && a[i] == b[0];
      LessTotal(a[0].key, b[0].key);
      assert a[0] == b[0];
      TailMembers(a);
      TailMembers(b);
      AscendingUnique(a[1..], b[1..]);
    }
  }

  lemma TailMembers(a: seq<Member>)
    requires KeysAscend(a) && a != []
    ensures KeysAscend(a[1..]) && forall m :: m in a[1..] <==> m in a && m != a[0]
  {
    LessIrreflexive(a[0].key);
    assert a == [a[0]] + a[1..];
    assert forall k | 0 <= k < |a| - 1 :: a[1..][k] == a[k + 1] && Less(a[0].key, a[k + 1].key);
  }

  /** Equal normal forms are exactly the equivalent values. */
  lemma {:induction false} NormsAgree(a: Value, b: Value)
    requires WellFormed(a) && WellFormed(b) && Supported(a) && Supported(b)
    ensures Norm(a) == Norm(b) <==> Equivalent(a, b)
    decreases a
  {
    match a
    case Arr(items) =>
      if b.Arr? {
        forall i | 0 <= i < |items| && i < |b.items|
          ensures NormItems(items)[i] == Norm(items[i]) && NormItems(b.items)[i] == Norm(b.items[i])
          ensures NormItems(items)[i] == NormItems(b.items)[i] <==> Equivalent(items[i], b.items[i])
        {
          NormItemsAt(items, i);
          NormItemsAt(b.items, i);
          NormsAgree(items[i], b.items[i]);
        }
      }
    case Obj(_, entries) =>
      if b.Obj? {
        forall i, j | 0 <= i < |entries| && 0 <= j < |b.entries|
          ensures Norm(entries[i].value) == Norm(b.entries[j].value) <==> Equivalent(entries[i].value, b.entries[j].value)
        {
          NormsAgree(entries[i].value, b.entries[j].value);
        }
        ObjectsAgree(a, b);
      }
    case _ =>
  }

  /** `b` defines an entry of the same key and normal form. */
  ghost predicate Named(e: Entry, b: Value)
    requires b.Obj?
  {
    exists j | 0 <= j < |b.entries| ::
      b.entries[j].key == e.key && b.entries[j].value != Undefined && Norm(e.value) == Norm(b.entries[j].value)
  }

  ghost predicate Covers(a: Value, b: Value)
    requires a.Obj? && b.Obj?
  {
    forall i | 0 <= i < |a.entries| && a.entries[i].value != Undefined :: Named(a.entries[i], b)
  }

  lemma CoversMembers(a: Value, b: Value)
    requires a.Obj? && b.Obj? && WellFormed(a) && WellFormed(b)
    ensures Covers(a, b) <==> forall m | m in Members(a) :: m in Members(b)
  {
    MembersOf(a);
    MembersOf(b);
    if Covers(a, b) {
      forall m | m in Members(a) ensures m in Members(b) {
        var i :| 0 <= i < |a.entries| && a.entries[i].value != Undefined && m == Member(a.entries[i].key, Norm(a.entries[i].value));
        assert Named(a.entries[i], b);
      }
    }
    if forall m | m in Members(a) :: m in Members(b) {
      forall i | 0 <= i < |a.entries| && a.entries[i].value != Undefined ensures Named(a.entries[i], b) {
        var m := Member(a.entries[i].key, Norm(a.entries[i].value));
        assert m in Members(b);
      }
    }
  }

  lemma FoundIsNamed(a: Value, i: nat, b: Value)
    requires a.Obj? && b.Obj? && i < |a.entries|
    requires forall j | 0 <= j < |b.entries| ::
               Norm(a.entries[i].value) == Norm(b.entries[j].value) <==> Equivalent(a.entries[i].value, b.entries[j].value)
    ensures FoundIn(a.entries[i], b) <==> Named(a.entries[i], b)
  {
  }

  lemma HoldsIsNamed(a: Value, b: Value, j: nat)
    requires a.Obj? && b.Obj? && j < |b.entries|
    requires forall i | 0 <= i < |a.entries| ::
               Norm(a.entries[i].value) == Norm(b.entries[j].value) <==> Equivalent(a.entries[i].value, b.entries[j].value)
    ensures Holds(a, b.entries[j]) <==> Named(b.entries[j], a)
  {
  }

  lemma ObjectsAgree(a: Value, b: Value)
    requires a.Obj? && b.Obj? && WellFormed(a) && WellFormed(b)
    requires forall i, j | 0 <= i < |a.entries| && 0 <= j < |b.entries| ::
               Norm(a.entries[i].value) == Norm(b.entries[j].value) <==> Equivalent(a.entries[i].value, b.entries[j].value)
    ensures Norm(a) == Norm(b) <==> Equivalent(a, b)
  {
    forall i | 0 <= i < |a.entries| ensures FoundIn(a.entries[i], b) <==> Named(a.entries[i], b) {
      FoundIsNamed(a, i, b);
    }
    forall j | 0 <= j < |b.entries| ensures Holds(a, b.entries[j]) <==> Named(b.entries[j], a) {
      HoldsIsNamed(a, b, j);
    }
    MembersDecide(a, b);
  }

  lemma MembersDecide(a: Value, b: Value)
    requires a.Obj? && b.Obj? && WellFormed(a) && WellFormed(b)
    ensures Norm(a) == Norm(b) <==> Covers(a, b) && Covers(b, a)
  {
    CoversMembers(a, b);
    CoversMembers(b, a);
    MembersOf(a);
    MembersOf(b);
    if Covers(a, b) && Covers(b, a) {
      AscendingUnique(Members(a), Members(b));
    }
  }

  /** The canonical text is produced for exactly the supported values, and two of them
      share it exactly when they are equivalent. */
  lemma SameTextExactlyWhenEquivalent(a: Value, b: Value)
    requires WellFormed(a) && WellFormed(b)
    ensures Canonicalize(a).Success? <==> Supported(a)
    ensures Supported(a) && Supported(b) ==>
              (Canonicalize(a) == Canonicalize(b) <==> Equivalent(a, b))
  {
    PrintsNormalForm(a);
    PrintsNormalForm(b);
    if Supported(a) && Supported(b) {
      NormsAgree(a, b);
      if Canonicalize(a) == Canonicalize(b) {
        assert Print(Norm(a)) + [] == Print(Norm(b)) + [];
        PrintUnique(Norm(a), Norm(b), [], []);
      }
    }
  }
}
