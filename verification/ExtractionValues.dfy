/** What a page read returns (browser-extraction-completeness-service.ts): its size, how it is
    cut to a limit and merged, and when nothing was cut. */
module ExtractionValues {
  import opened Text
  import opened JsonText
  import opened Extraction

  datatype Format = TextFormat | Html | Json

  /** `json` is the serialized value of a field other than the text. */
  datatype Field = Field(name: Str, json: Str)

  /** What a read returns: a string, a record with a text and other fields, or anything
      else, of which only the serialized size matters. */
  datatype Extracted = Chars(s: Str) | Record(fields: seq<Field>, text: Str) | Other(bytes: nat)

  // ---------------------------------------------------------------- values

  function FieldsBytes(fields: seq<Field>): nat {
    if fields == [] then 0
    else 2 + ByteLength(Quote(fields[0].name)) + ByteLength(fields[0].json) + FieldsBytes(fields[1..])
  }

  /** Size of `{"text":"...",...}`. */
  function RecordBytes(fields: seq<Field>, text: Str): nat {
    11 + ByteLength(Escape(text)) + FieldsBytes(fields)
  }

  /** `,"name":json` for each field. */
  function FieldsText(fields: seq<Field>): Str {
    if fields == [] then []
    else [COMMA] + (Quote(fields[0].name) + ([COLON] + (fields[0].json + FieldsText(fields[1..]))))
  }

  const COMMA: CodeUnit := 0x2C
  const COLON: CodeUnit := 0x3A

  /** `{"text":"..."` with the fields, and `}`. */
  function RecordText(fields: seq<Field>, text: Str): Str {
    [0x7B, QUOTE, 0x74, 0x65, 0x78, 0x74, QUOTE, COLON] + (Quote(text) + (FieldsText(fields) + [0x7D]))
  }

  /** The size is that of the text. */
  lemma RecordBytesIsTextLength(fields: seq<Field>, text: Str)
    ensures RecordBytes(fields, text) == ByteLength(RecordText(fields, text))
  {
    var head: Str := [0x7B, QUOTE, 0x74, 0x65, 0x78, 0x74, QUOTE, COLON];
    var rest := FieldsText(fields) + [0x7D];
    SingleByteLength(head);
    SingleByteLength([0x7D]);
    FieldsBytesIsTextLength(fields);
    BytesAppend(FieldsText(fields), [0x7D]);
    QuoteBytes(text);
    BytesAppend(Quote(text), rest);
    BytesAppend(head, Quote(text) + rest);
  }

  lemma QuoteBytes(s: Str)
    ensures ByteLength(Quote(s)) == 2 + ByteLength(Escape(s))
  {
    SingleByteLength([QUOTE]);
    BytesAppend([QUOTE], Escape(s));
    BytesAppend([QUOTE] + Escape(s), [QUOTE]);
  }

  lemma {:induction false} FieldsBytesIsTextLength(fields: seq<Field>)
    ensures FieldsBytes(fields) == ByteLength(FieldsText(fields))
    ensures fields != [] ==> FieldsText(fields) != [] && FieldsText(fields)[0] == COMMA
  {
    if fields != [] {
      var rest := FieldsText(fields[1..]);
      FieldsBytesIsTextLength(fields[1..]);
      SingleByteLength([COMMA]);
      SingleByteLength([COLON]);
      BytesAppend(fields[0].json, rest);
      BytesAppend([COLON], fields[0].json + rest);
      BytesAppend(Quote(fields[0].name), [COLON] + (fields[0].json + rest));
      BytesAppend([COMMA], Quote(fields[0].name) + ([COLON] + (fields[0].json + rest)));
    }
  }

  function ValueBytes(v: Extracted): nat {
    match v
    case Chars(s) => ByteLength(s)
    case Record(fields, text) => RecordBytes(fields, text)
    case Other(bytes) => bytes
  }

  function AtLeastOne(n: int): nat {
    if n < 1 then 1 else n
  }

  function Truncated(v: Extracted, format: Format, maxBytes: nat): Extracted {
    match v
    case Chars(s) => if format == Json then v else Chars(Cut(s, maxBytes))
    case Record(fields, text) =>
      if format == Json then Record(fields, Cut(text, AtLeastOne(maxBytes - RecordBytes(fields, [])))) else v
    case Other(_) => v
  }

  method TruncateValue(v: Extracted, format: Format, maxBytes: nat) returns (r: Extracted)
    ensures r == Truncated(v, format, maxBytes)
  {
    match v {
      case Chars(s) =>
        if format == Json { return v; }
        var t := TruncateString(s, maxBytes);
        TruncationUnique(s, maxBytes, t);
        return Chars(t);
      case Record(fields, text) =>
        if format != Json { return v; }
        var overhead := RecordBytes(fields, []);
        var t := TruncateString(text, AtLeastOne(maxBytes - overhead));
        TruncationUnique(text, AtLeastOne(maxBytes - overhead), t);
        return Record(fields, t);
      case Other(_) => return v;
    }
  }

  predicate HasName(fields: seq<Field>, name: Str) {
    exists i | 0 <= i < |fields| :: fields[i].name == name
  }

  function Keeping(fields: seq<Field>, later: seq<Field>): seq<Field> {
    if fields == [] then []
    else if HasName(later, fields[0].name) then Keeping(fields[1..], later)
    else [fields[0]] + Keeping(fields[1..], later)
  }

  /** Object spread: later fields win. */
  function Spread(fields: seq<Field>, later: seq<Field>): seq<Field> {
    Keeping(fields, later) + later
  }

  function MergedWithinPage(current: Extracted, next: Extracted, format: Format): Extracted {
    if format == TextFormat && current.Chars? && next.Chars? then Chars(Merged(current.s, next.s))
    else if format == Json && current.Record? && next.Record? then
      Record(Spread(current.fields, next.fields), Merged(current.text, next.text))
    else next
  }

  function JoinPages(pages: seq<Extracted>): Str
    requires forall p | p in pages :: p.Chars?
  {
    if pages == [] then []
    else if |pages| == 1 then pages[0].s
    else pages[0].s + [LF, LF] + JoinPages(pages[1..])
  }

  function Combined(values: seq<Extracted>, format: Format): Extracted
    requires values != []
  {
    if |values| == 1 then values[0]
    else if format == TextFormat && forall v | v in values :: v.Chars? then Chars(JoinPages(values))
    else values[|values| - 1]
  }

  function TotalBytes(values: seq<Extracted>): nat {
    if values == [] then 0 else TotalBytes(values[..|values| - 1]) + ValueBytes(values[|values| - 1])
  }

  // ---------------------------------------------------------------- when nothing is cut

  predicate SingleByteValue(v: Extracted) {
    match v
    case Chars(s) => SingleByte(s)
    case Record(_, text) => SingleByte(text)
    case Other(_) => true
  }

  lemma {:induction false} EscapeGrows(s: Str)
    ensures |Escape(s)| >= |s|
  {
    if s == [] {
    } else if |s| >= 2 && JsonText.High(s[0]) && JsonText.Low(s[1]) {
      EscapeGrows(s[2..]);
    } else {
      EscapeGrows(s[1..]);
    }
  }

  /** A single-byte value that stays below its limit was not cut. */
  lemma NoCut(v: Extracted, format: Format, limit: nat)
    requires SingleByteValue(v) && limit >= 1 && ValueBytes(Truncated(v, format, limit)) < limit
    ensures Truncated(v, format, limit) == v
  {
    match v
    case Chars(s) =>
      TruncationUnique(s, limit, s);
      assert s[..|s|] == s;
      if ByteLength(s) > limit { CutFillsExactlyWhen(s, limit); }
    case Record(fields, text) =>
      var max := AtLeastOne(limit - RecordBytes(fields, []));
      TruncationUnique(text, max, text);
      assert text[..|text|] == text;
      if ByteLength(text) > max {
        CutFillsExactlyWhen(text, max);
        EscapeGrows(Cut(text, max));
      }
    case Other(_) =>
  }

  lemma {:induction false} FieldsAppend(a: seq<Field>, b: seq<Field>)
    ensures FieldsBytes(a + b) == FieldsBytes(a) + FieldsBytes(b)
  {
    if a == [] {
      assert a + b == b;
    } else {
      assert (a + b)[1..] == a[1..] + b;
      FieldsAppend(a[1..], b);
    }
  }

  lemma {:induction false} JoinSingleByte(lines: seq<Str>)
    requires forall l | l in lines :: SingleByte(l)
    ensures SingleByte(Join(lines))
  {
    if lines != [] {
      assert lines[0] in lines && forall l | l in lines[1..] :: l in lines;
      JoinSingleByte(lines[1..]);
    }
  }

  lemma {:induction false} SplitSingleByte(s: Str)
    requires SingleByte(s)
    ensures forall l | l in Split(s) :: SingleByte(l)
  {
    if s != [] {
      SplitSingleByte(s[1..]);
      var rest := Split(s[1..]);
      assert SingleByte(rest[0]) by { assert rest[0] in rest; }
      forall l | l in Split(s) ensures SingleByte(l) {
        assert s[0] == LF ==> l == [] || l in rest;
        assert s[0] != LF ==> l == [s[0]] + rest[0] || l in rest;
      }
    }
  }

  lemma MergedSingleByte(current: Str, next: Str)
    requires SingleByte(current) && SingleByte(next)
    ensures SingleByte(Merged(current, next))
  {
    var lines, more := Split(current), Split(next);
    var k := Overlap(lines, more, Min(Min(|lines|, |more|), MAX_OVERLAP));
    JoinedSingleByte(current, next, k);
    AppendSingleByte(current, next);
  }

  lemma JoinedSingleByte(current: Str, next: Str, k: nat)
    requires SingleByte(current) && SingleByte(next) && k <= |Split(next)|
    ensures SingleByte(Join(Split(current) + Split(next)[k..]))
  {
    SplitSingleByte(current);
    SplitSingleByte(next);
    JoinSingleByte(Split(current) + Split(next)[k..]);
  }

  lemma AppendSingleByte(a: Str, b: Str)
    requires SingleByte(a) && SingleByte(b)
    ensures SingleByte(a + [LF] + b)
  {
  }

  lemma MergeStaysSingleByte(current: Extracted, next: Extracted, format: Format)
    requires SingleByteValue(current) && SingleByteValue(next)
    ensures SingleByteValue(MergedWithinPage(current, next, format))
  {
    if current.Chars? && next.Chars? { MergedSingleByte(current.s, next.s); }
    if current.Record? && next.Record? { MergedSingleByte(current.text, next.text); }
  }

  lemma TruncatedStaysSingleByte(v: Extracted, format: Format, limit: nat)
    requires SingleByteValue(v)
    ensures SingleByteValue(Truncated(v, format, limit))
  {
    match v
    case Chars(s) => TruncationUnique(s, limit, Cut(s, limit));
    case Record(fields, text) =>
      var max := AtLeastOne(limit - RecordBytes(fields, []));
      TruncationUnique(text, max, Cut(text, max));
    case Other(_) =>
  }

  /** A merge holds at least as many bytes as the sample merged in. */
  lemma MergeHoldsSample(current: Extracted, sample: Extracted, format: Format, limit: nat)
    requires SingleByteValue(current) && SingleByteValue(sample)
    requires sample.Record? ==> RecordBytes(sample.fields, []) + |sample.text| >= limit
    requires !sample.Record? ==> ValueBytes(sample) >= limit
    ensures ValueBytes(MergedWithinPage(current, sample, format)) >= limit
  {
    if format == TextFormat && current.Chars? && sample.Chars? {
      MergeKeepsBoth(current.s, sample.s);
      SingleByteLength(sample.s);
    } else if format == Json && current.Record? && sample.Record? {
      MergeKeepsBoth(current.text, sample.text);
      EscapeGrows(Merged(current.text, sample.text));
      FieldsAppend(Keeping(current.fields, sample.fields), sample.fields);
    } else if sample.Record? {
      EscapeGrows(sample.text);
    }
  }

  /** If the page text stays below its limit after a sample was merged in, neither the sample
      nor the merge was cut. */
  lemma NoCutMerge(current: Extracted, read: Extracted, format: Format, limit: nat)
    requires SingleByteValue(current) && SingleByteValue(read) && limit >= 1
    requires var sample := Truncated(read, format, limit);
             ValueBytes(Truncated(MergedWithinPage(current, sample, format), format, limit)) < limit
    ensures Truncated(read, format, limit) == read
    ensures Truncated(MergedWithinPage(current, read, format), format, limit) == MergedWithinPage(current, read, format)
  {
    var sample := Truncated(read, format, limit);
    TruncatedStaysSingleByte(read, format, limit);
    MergeStaysSingleByte(current, sample, format);
    NoCut(MergedWithinPage(current, sample, format), format, limit);
    if sample != read {
      CutFillsLimit(read, format, limit);
      MergeHoldsSample(current, sample, format, limit);
    }
  }

  lemma CutFillsLimit(read: Extracted, format: Format, limit: nat)
    requires SingleByteValue(read) && limit >= 1 && Truncated(read, format, limit) != read
    ensures var sample := Truncated(read, format, limit);
            && (sample.Record? ==> RecordBytes(sample.fields, []) + |sample.text| >= limit)
            && (!sample.Record? ==> ValueBytes(sample) >= limit)
  {
    match read
    case Chars(s) =>
      TruncationUnique(s, limit, s);
      assert s[..|s|] == s;
      CutFillsExactlyWhen(s, limit);
    case Record(fields, text) =>
      var max := AtLeastOne(limit - RecordBytes(fields, []));
      TruncationUnique(text, max, text);
      assert text[..|text|] == text;
      CutFillsExactlyWhen(text, max);
    case Other(_) =>
  }

  /** A value that fits its limit is returned as it is. */
  lemma FitsUncut(v: Extracted, format: Format, limit: nat)
    requires ValueBytes(v) <= limit && (v.Record? ==> SingleByteValue(v))
    ensures Truncated(v, format, limit) == v
  {
    match v
    case Chars(s) =>
      TruncationUnique(s, limit, s);
      assert s[..|s|] == s;
    case Record(fields, text) =>
      EscapeGrows(text);
      SingleByteLength(text);
      TruncationUnique(text, AtLeastOne(limit - RecordBytes(fields, [])), text);
      assert text[..|text|] == text;
    case Other(_) =>
  }

  /** Cut text never exceeds the limit. */
  lemma CutFits(v: Extracted, format: Format, limit: nat)
    requires v.Chars? && format != Json
    ensures ValueBytes(Truncated(v, format, limit)) <= limit
  {
    TruncationUnique(v.s, limit, Cut(v.s, limit));
  }

  lemma {:induction false} JoinHoldsBytes(pages: seq<Extracted>)
    requires forall p | p in pages :: p.Chars?
    ensures ByteLength(JoinPages(pages)) >= TotalBytes(pages)
  {
    if |pages| == 1 {
      assert pages[..0] == [];
    } else if pages != [] {
      JoinHoldsBytes(pages[1..]);
      TotalFront(pages);
      BytesBetweenPages(pages[0].s, JoinPages(pages[1..]));
    }
  }

  lemma BytesBetweenPages(a: Str, b: Str)
    ensures ByteLength(a + [LF, LF] + b) == ByteLength(a) + 2 + ByteLength(b)
  {
    BytesAtLineFeed(a, [LF] + b);
    BytesAtLineFeed([], b);
    assert [] + [LF] + b == [LF] + b;
    assert a + [LF, LF] + b == a + [LF] + ([LF] + b);
  }

  lemma {:induction false} TotalFront(values: seq<Extracted>)
    requires values != []
    ensures TotalBytes(values) == ValueBytes(values[0]) + TotalBytes(values[1..])
  {
    var n := |values|;
    if n == 1 {
      assert values[..0] == [] && values[1..] == [];
    } else {
      TotalFront(values[..n - 1]);
      assert values[..n - 1][1..] == values[1..][..n - 2] && values[1..][n - 2] == values[n - 1];
    }
  }
}
