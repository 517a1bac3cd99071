/** The extraction loop (browser-extraction-completeness-service.ts): scrolling, pagination
    and limits over an arbitrary page. */
module ExtractionRun {
  import opened Text
  import opened Extraction
  import opened ExtractionValues

  datatype Mode = Visible | Document | DocumentAndPagination

  datatype Probe = Probe(
    scrollTop: real,
    viewportSize: real,
    scrollSize: real,
    contentBytes: int,
    signature: Str,
    nextUrl: Option<Str>)

  /** Limits are numbers; None stands for one that is not finite. */
  datatype Request = Request(
    format: Format,
    mode: Mode,
    maxScrolls: Option<real>,
    maxPages: Option<real>,
    maxBytes: Option<real>,
    timeoutMs: Option<real>,
    noProgressLimit: Option<real>)
  {
    function MaxScrolls(): nat { PositiveInteger(maxScrolls) }
    function MaxPages(): nat { PositiveInteger(maxPages) }
    function MaxBytes(): nat { PositiveInteger(maxBytes) }
    function NoProgressLimit(): nat { PositiveInteger(noProgressLimit) }
  }

  datatype Status = Complete | Partial

  datatype Reason =
    | VisibleOnly | TimeLimit | ByteLimit | ScrollLimit | NoProgress | VirtualizedContent
    | EndOfDocument | PaginationEnd | PaginationAvailable | UnsafePagination | PageLimit | Cycle

  datatype Completed = Completed(
    value: Extracted,
    status: Status,
    reason: Reason,
    pages: nat,
    scrolls: nat,
    bytes: nat,
    paginationAvailable: bool)

  datatype ExtractError = Cancelled

  function PositiveInteger(v: Option<real>): (n: nat)
    ensures n >= 1
    ensures v.Some? && v.value >= 1.0 ==> n as real <= v.value < n as real + 1.0
    ensures v.None? || v.value < 1.0 ==> n == 1
  {
    if v.None? || v.value < 1.0 then 1 else v.value.Floor
  }

  /** The page and the clock: the answer to the n-th question of each kind is arbitrary. */
  class Page {
    const probes: nat -> Probe
    const samples: nat -> Extracted
    const clock: nat -> int
    const aborted: nat -> bool
    const follows: nat -> bool
    const canNavigate: bool

    var probeLog: seq<Probe>
    var readLog: seq<Extracted>
    var ticks: nat
    var checks: nat
    var navigated: seq<Str>

    constructor (probes: nat -> Probe, samples: nat -> Extracted, clock: nat -> int, aborted: nat -> bool,
      follows: nat -> bool, canNavigate: bool)
      ensures this.probes == probes && this.samples == samples && this.clock == clock && this.aborted == aborted
      ensures this.follows == follows && this.canNavigate == canNavigate
      ensures readLog == [] && probeLog == [] && navigated == [] && ticks == checks == 0
    {
      this.probes, this.samples, this.clock, this.aborted := probes, samples, clock, aborted;
      this.follows, this.canNavigate := follows, canNavigate;
      probeLog, readLog, ticks, checks, navigated := [], [], 0, 0, [];
    }

    /** The latest reading of the clock is past the deadline. */
    ghost predicate TimedOut(deadline: int)
      reads this
    {
      ticks > 0 && clock(ticks - 1) >= deadline
    }

    method Probe() returns (p: Probe)
      modifies `probeLog
      ensures p == probes(|old(probeLog)|) && probeLog == old(probeLog) + [p]
    {
      p := probes(|probeLog|);
      probeLog := probeLog + [p];
    }

    method Read() returns (v: Extracted)
      modifies `readLog
      ensures v == samples(|old(readLog)|) && readLog == old(readLog) + [v]
    {
      v := samples(|readLog|);
      readLog := readLog + [v];
    }

    method Now() returns (t: int)
      modifies `ticks
      ensures t == clock(old(ticks)) && ticks == old(ticks) + 1
    {
      t := clock(ticks);
      ticks := ticks + 1;
    }

    method AssertActive() returns (ok: bool)
      modifies `checks
      ensures ok == !aborted(old(checks)) && checks == old(checks) + 1
    {
      ok := !aborted(checks);
      checks := checks + 1;
    }

    method NavigateNext(url: Str) returns (ok: bool)
      modifies `navigated
      ensures ok == follows(|old(navigated)|) && navigated == old(navigated) + [url]
    {
      ok := follows(|navigated|);
      navigated := navigated + [url];
    }
  }

  // ---------------------------------------------------------------- what was seen

  predicate AtEnd(p: Probe) {
    p.scrollTop + p.viewportSize >= p.scrollSize - 2.0
  }

  /** At most two units of the page lie below what is shown. */
  predicate EndInView(p: Probe) {
    p.scrollSize - (p.scrollTop + p.viewportSize) <= 2.0
  }

  predicate HasNext(p: Probe) {
    p.nextUrl.Some? && p.nextUrl.value != []
  }

  function NextOf(p: Probe): Str {
    if p.nextUrl.Some? then p.nextUrl.value else []
  }

  predicate Progressed(before: Probe, after: Probe) {
    after.scrollTop > before.scrollTop || after.scrollSize > before.scrollSize || after.signature != before.signature
  }

  /** A page's probes and samples, in order. */
  datatype Visit = Visit(probes: seq<Probe>, samples: seq<Extracted>) {
    /** One read per probe, and scrolling went on only while the end was not in view. */
    predicate Valid() {
      && |probes| == |samples| > 0
      && forall i | 0 <= i < |probes| - 1 :: !EndInView(probes[i])
    }

    function Last(): Probe
      requires Valid()
    {
      probes[|probes| - 1]
    }
  }

  /** The number of scrolls without progress at the end of the list. */
  function Stalled(probes: seq<Probe>): nat {
    if |probes| < 2 then 0
    else
      var n := |probes|;
      if Progressed(probes[n - 2], probes[n - 1]) then 0 else Stalled(probes[..n - 1]) + 1
  }

  /** Some scroll replaced the content instead of adding to it. */
  predicate Replaced(probes: seq<Probe>) {
    exists i {:trigger probes[i]} | 1 <= i < |probes| ::
      probes[i].signature != probes[i - 1].signature && probes[i].contentBytes <= probes[i - 1].contentBytes
  }

  /** The text of a page: its samples merged in order. */
  function PageText(samples: seq<Extracted>, format: Format): Extracted
    requires samples != []
  {
    var n := |samples|;
    if n == 1 then samples[0] else MergedWithinPage(PageText(samples[..n - 1], format), samples[n - 1], format)
  }

  /** The text of a page as it is kept: every sample and every merge cut to the limit. */
  function KeptPage(samples: seq<Extracted>, format: Format, limit: nat): Extracted
    requires samples != []
  {
    var n := |samples|;
    var sample := Truncated(samples[n - 1], format, limit);
    if n == 1 then sample else Truncated(MergedWithinPage(KeptPage(samples[..n - 1], format, limit), sample, format), format, limit)
  }

  function RemainingBytes(maxBytes: nat, completed: nat): nat {
    AtLeastOne(maxBytes - completed)
  }

  ghost predicate ValidVisits(visits: seq<Visit>) {
    forall i | 0 <= i < |visits| :: visits[i].Valid()
  }

  function Scrolls(visits: seq<Visit>): int {
    if visits == [] then 0 else Scrolls(visits[..|visits| - 1]) + |visits[|visits| - 1].probes| - 1
  }

  function AllReads(visits: seq<Visit>): seq<Extracted> {
    if visits == [] then [] else AllReads(visits[..|visits| - 1]) + visits[|visits| - 1].samples
  }

  function AllProbes(visits: seq<Visit>): seq<Probe> {
    if visits == [] then [] else AllProbes(visits[..|visits| - 1]) + visits[|visits| - 1].probes
  }

  ghost predicate PagesKeptWhole(visits: seq<Visit>, values: seq<Extracted>, format: Format)
    requires ValidVisits(visits) && |visits| == |values|
  {
    forall i | 0 <= i < |values| :: values[i] == PageText(visits[i].samples, format)
  }

  /** Each page is kept within what the pages before it left of the limit, and they left some. */
  ghost predicate KeptPages(visits: seq<Visit>, values: seq<Extracted>, format: Format, maxBytes: nat)
    requires ValidVisits(visits) && |visits| == |values|
  {
    var n := |values|;
    n == 0 ||
    (&& KeptPages(visits[..n - 1], values[..n - 1], format, maxBytes)
     && TotalBytes(values[..n - 1]) < maxBytes
     && values[n - 1] == KeptPage(visits[n - 1].samples, format, RemainingBytes(maxBytes, TotalBytes(values[..n - 1]))))
  }

  predicate AllSmall(samples: seq<Extracted>) {
    forall i | 0 <= i < |samples| :: SingleByteValue(samples[i])
  }

  ghost predicate AllSingleByte(visits: seq<Visit>) {
    forall i | 0 <= i < |visits| :: AllSmall(visits[i].samples)
  }

  predicate LeftThrough(visits: seq<Visit>, links: seq<Str>, i: nat)
    requires i < |links| <= |visits| && visits[i].Valid()
  {
    visits[i].Last().nextUrl == Some(links[i]) && links[i] != [] && EndInView(visits[i].Last())
  }

  predicate Different(visits: seq<Visit>, links: seq<Str>, i: nat, j: nat)
    requires i < j < |links| <= |visits| && visits[i].Valid() && visits[j].Valid()
  {
    links[i] != links[j] && visits[i].Last().signature != visits[j].Last().signature
  }

  /** The pages left behind, each through its own link, no link twice and no signature twice. */
  ghost predicate Followed(visits: seq<Visit>, links: seq<Str>)
    requires ValidVisits(visits)
  {
    && |links| <= |visits|
    && (forall i | 0 <= i < |links| :: LeftThrough(visits, links, i))
    && (forall i, j | 0 <= i < j < |links| :: Different(visits, links, i, j))
  }

  /** The reason given is true of what was seen. */
  ghost predicate Justified(request: Request, canNavigate: bool, visits: seq<Visit>, values: seq<Extracted>,
    links: seq<Str>, timedOut: bool, reason: Reason)
    requires visits != [] && ValidVisits(visits)
  {
    var last := visits[|visits| - 1];
    var linked := last.Last().nextUrl != None && last.Last().nextUrl != Some([]);
    match reason
    case VisibleOnly => false
    case TimeLimit => timedOut
    case ByteLimit =>
      || TotalBytes(values) >= request.MaxBytes()
      || last.Last().contentBytes >= request.MaxBytes()
      || (values != [] && ValueBytes(Combined(values, request.format)) > request.MaxBytes())
    case ScrollLimit => Scrolls(visits) == request.MaxScrolls() && !EndInView(last.Last())
    case NoProgress => Stalled(last.probes) >= request.NoProgressLimit() && !EndInView(last.Last())
    case VirtualizedContent => request.format == Html && Replaced(last.probes) && EndInView(last.Last())
    case EndOfDocument => request.mode.Document? && EndInView(last.Last()) && !linked
    case PaginationEnd => request.mode.DocumentAndPagination? && EndInView(last.Last()) && !linked
    case PaginationAvailable => request.mode.Document? && EndInView(last.Last()) && linked
    case UnsafePagination =>
      && request.mode.DocumentAndPagination? && linked
      && (request.format != TextFormat || !canNavigate || |links| == |visits|)
    case PageLimit => |visits| == request.MaxPages() && linked
    case Cycle =>
      && linked
      && (last.Last().nextUrl.value in links || exists i | 0 <= i < |visits| - 1 :: visits[i].Last().signature == last.Last().signature)
  }

  // ---------------------------------------------------------------- the result

  predicate ReachedByteLimit(maxBytes: nat, completed: nat, current: nat, raw: int) {
    completed + current >= maxBytes || raw >= maxBytes
  }

  method ResultOf(request: Request, values: seq<Extracted>, status: Status, reason: Reason, pages: nat, scrolls: nat,
    paginationAvailable: bool) returns (r: Completed)
    requires values != []
    ensures r.value == Truncated(Combined(values, request.format), request.format, request.MaxBytes())
    ensures r.bytes == ValueBytes(r.value) && r.pages == pages && r.scrolls == scrolls
    ensures r.paginationAvailable == paginationAvailable
    ensures var cut := ValueBytes(Combined(values, request.format)) > request.MaxBytes();
            && r.status == (if cut then Partial else status)
            && r.reason == (if cut then ByteLimit else reason)
  {
    var combined := Combined(values, request.format);
    var value := TruncateValue(combined, request.format, request.MaxBytes());
    var cut := ValueBytes(combined) > request.MaxBytes();
    return Completed(value, if cut then Partial else status, if cut then ByteLimit else reason, pages, scrolls,
        ValueBytes(value), paginationAvailable);
  }

  // ---------------------------------------------------------------- one page

  const NOTHING_SEEN := Probe(0.0, 0.0, 0.0, 0, [], None)

  datatype PageEnd = Aborted | Stopped(reason: Reason) | Finished(virtualized: bool)

  lemma StepStalled(probes: seq<Probe>, p: Probe)
    requires probes != []
    ensures Stalled(probes + [p]) == if Progressed(probes[|probes| - 1], p) then 0 else Stalled(probes) + 1
  {
    assert (probes + [p])[..|probes|] == probes;
  }

  lemma StepReplaced(probes: seq<Probe>, p: Probe)
    requires probes != []
    ensures Replaced(probes + [p]) <==>
      (Replaced(probes)
       || (p.signature != probes[|probes| - 1].signature && p.contentBytes <= probes[|probes| - 1].contentBytes))
  {
    var all := probes + [p];
    assert forall i | 0 <= i < |probes| :: all[i] == probes[i];
    assert all[|probes|] == p;
  }

  lemma StepPageText(samples: seq<Extracted>, v: Extracted, format: Format)
    requires samples != []
    ensures PageText(samples + [v], format) == MergedWithinPage(PageText(samples, format), v, format)
  {
    assert (samples + [v])[..|samples|] == samples;
  }

  lemma StepKeptPage(samples: seq<Extracted>, v: Extracted, format: Format, limit: nat)
    requires samples != []
    ensures KeptPage(samples + [v], format, limit)
         == Truncated(MergedWithinPage(KeptPage(samples, format, limit), Truncated(v, format, limit), format), format, limit)
  {
    assert (samples + [v])[..|samples|] == samples;
  }

  lemma {:induction false} PageTextSingleByte(samples: seq<Extracted>, format: Format)
    requires samples != [] && AllSmall(samples)
    ensures SingleByteValue(PageText(samples, format))
  {
    var n := |samples|;
    if n > 1 {
      PageTextSingleByte(samples[..n - 1], format);
      assert samples[n - 1] in samples;
      MergeStaysSingleByte(PageText(samples[..n - 1], format), samples[n - 1], format);
    } else {
      assert samples[0] in samples;
    }
  }

  /** One scroll keeps the page whole as long as the text stays below its limit. */
  lemma StepKeepsWhole(samples: seq<Extracted>, read: Extracted, format: Format, limit: nat)
    requires samples != [] && AllSmall(samples) && SingleByteValue(read) && limit >= 1
    requires var merged := MergedWithinPage(PageText(samples, format), Truncated(read, format, limit), format);
             ValueBytes(Truncated(merged, format, limit)) < limit
    ensures var merged := MergedWithinPage(PageText(samples, format), Truncated(read, format, limit), format);
            Truncated(merged, format, limit) == PageText(samples + [read], format)
  {
    PageTextSingleByte(samples, format);
    NoCutMerge(PageText(samples, format), read, format, limit);
    StepPageText(samples, read, format);
  }

  lemma SmallPrefix(samples: seq<Extracted>, read: Extracted)
    requires AllSmall(samples + [read])
    ensures AllSmall(samples) && SingleByteValue(read)
  {
    var all := samples + [read];
    assert all[|samples|] == read;
    assert forall i | 0 <= i < |samples| :: all[i] == samples[i];
  }

  /** The value is what is kept of the page within what is left of the limit. */
  predicate IsKept(request: Request, visit: Visit, value: Extracted, completed: nat)
    requires visit.Valid()
  {
    value == KeptPage(visit.samples, request.format, RemainingBytes(request.MaxBytes(), completed))
  }

  /** The part of a page read so far, while no limit has been met. */
  ghost predicate Reading(request: Request, visit: Visit, value: Extracted, completed: nat) {
    && visit.Valid()
    && completed + ValueBytes(value) < request.MaxBytes() && visit.Last().contentBytes < request.MaxBytes()
    && (AllSmall(visit.samples) ==> value == PageText(visit.samples, request.format))
  }

  /** Why reading a page stopped, stated over what was seen on it. */
  ghost predicate StopJustified(request: Request, reason: Reason, visit: Visit, value: Extracted, completed: nat,
    scrolls: nat, timedOut: bool)
    requires visit.Valid()
  {
    match reason
    case TimeLimit => timedOut
    case ByteLimit => ReachedByteLimit(request.MaxBytes(), completed, ValueBytes(value), visit.Last().contentBytes)
    case ScrollLimit => scrolls >= request.MaxScrolls() && !EndInView(visit.Last())
    case NoProgress => Stalled(visit.probes) >= request.NoProgressLimit() && !EndInView(visit.Last())
    case _ => false
  }

  method OpenPage(request: Request, page: Page, deadline: int, completed: nat)
    returns (stop: Option<Reason>, value: Extracted, probe: Probe, ghost visit: Visit)
    requires completed < request.MaxBytes()
    modifies page`probeLog, page`readLog, page`ticks
    ensures visit.Valid() && visit.probes == [probe] && page.readLog == old(page.readLog) + visit.samples
    ensures page.probeLog == old(page.probeLog) + visit.probes
    ensures IsKept(request, visit, value, completed)
    ensures stop.Some? ==> StopJustified(request, stop.value, visit, value, completed, 0, page.TimedOut(deadline))
    ensures stop.Some? ==> stop.value in {TimeLimit, ByteLimit}
    ensures stop.None? ==> Reading(request, visit, value, completed) && !page.TimedOut(deadline)
  {
    var limit := RemainingBytes(request.MaxBytes(), completed);
    probe := page.Probe();
    var read := page.Read();
    value := TruncateValue(read, request.format, limit);
    visit := Visit([probe], [read]);
    var now := page.Now();
    if now >= deadline { return Some(TimeLimit), value, probe, visit; }
    if ReachedByteLimit(request.MaxBytes(), completed, ValueBytes(value), probe.contentBytes) {
      return Some(ByteLimit), value, probe, visit;
    }
    if AllSmall([read]) {
      assert [read][0] == read;
      NoCut(read, request.format, limit);
    }
    stop := None;
  }

  lemma ScrolledKept(request: Request, visit: Visit, value: Extracted, completed: nat, read: Extracted, probe: Probe, merged: Extracted)
    requires visit.Valid() && !EndInView(visit.Last()) && IsKept(request, visit, value, completed)
    requires var limit := RemainingBytes(request.MaxBytes(), completed);
             merged == Truncated(MergedWithinPage(value, Truncated(read, request.format, limit), request.format), request.format, limit)
    ensures var after := Visit(visit.probes + [probe], visit.samples + [read]);
            after.Valid() && IsKept(request, after, merged, completed)
  {
    VisitExtends(visit, probe, read);
    StepKeptPage(visit.samples, read, request.format, RemainingBytes(request.MaxBytes(), completed));
  }

  /** A scroll that met no byte limit keeps the page whole. */
  lemma ScrolledOn(request: Request, visit: Visit, value: Extracted, completed: nat, read: Extracted, probe: Probe, merged: Extracted)
    requires Reading(request, visit, value, completed) && !EndInView(visit.Last())
    requires var limit := RemainingBytes(request.MaxBytes(), completed);
             merged == Truncated(MergedWithinPage(value, Truncated(read, request.format, limit), request.format), request.format, limit)
    requires !ReachedByteLimit(request.MaxBytes(), completed, ValueBytes(merged), probe.contentBytes)
    ensures Reading(request, Visit(visit.probes + [probe], visit.samples + [read]), merged, completed)
  {
    VisitExtends(visit, probe, read);
    if AllSmall(visit.samples + [read]) {
      SmallPrefix(visit.samples, read);
      StepKeepsWhole(visit.samples, read, request.format, RemainingBytes(request.MaxBytes(), completed));
    }
  }

  lemma VisitExtends(visit: Visit, probe: Probe, read: Extracted)
    requires visit.Valid() && !EndInView(visit.Last())
    ensures var after := Visit(visit.probes + [probe], visit.samples + [read]);
            after.Valid() && after.Last() == probe
  {
  }

  /** Probes and reads again, and merges the sample in. */
  method TakeSample(request: Request, page: Page, completed: nat, value: Extracted, previous: Probe, noProgress: nat, ghost visit: Visit)
    returns (merged: Extracted, probe: Probe, stalled: nat, virtualized: bool, ghost read: Extracted)
    requires Reading(request, visit, value, completed) && previous == visit.Last() && !EndInView(previous)
    requires IsKept(request, visit, value, completed) && noProgress == Stalled(visit.probes)
    modifies page`probeLog, page`readLog
    ensures page.readLog == old(page.readLog) + [read] && page.probeLog == old(page.probeLog) + [probe]
    ensures var after := Visit(visit.probes + [probe], visit.samples + [read]);
            && after.Valid() && IsKept(request, after, merged, completed) && stalled == Stalled(after.probes)
            && (request.format == Html && Replaced(after.probes)) == ((request.format == Html && Replaced(visit.probes)) || virtualized)
            && (!ReachedByteLimit(request.MaxBytes(), completed, ValueBytes(merged), probe.contentBytes) ==>
                  Reading(request, after, merged, completed))
  {
    var limit := RemainingBytes(request.MaxBytes(), completed);
    probe := page.Probe();
    var current := page.Read();
    read := current;
    var sample := TruncateValue(current, request.format, limit);
    merged := TruncateValue(MergedWithinPage(value, sample, request.format), request.format, limit);
    StepStalled(visit.probes, probe);
    StepReplaced(visit.probes, probe);
    ScrolledKept(request, visit, value, completed, read, probe, merged);
    if !ReachedByteLimit(request.MaxBytes(), completed, ValueBytes(merged), probe.contentBytes) {
      ScrolledOn(request, visit, value, completed, read, probe, merged);
    }
    virtualized := request.format == Html && probe.signature != previous.signature && probe.contentBytes <= previous.contentBytes;
    var progressed := probe.scrollTop > previous.scrollTop || probe.scrollSize > previous.scrollSize || probe.signature != previous.signature;
    stalled := if progressed then 0 else noProgress + 1;
  }

  /** One scroll: a sample more, then the limits are tested. */
  method Scroll(request: Request, page: Page, deadline: int, completed: nat, value: Extracted, previous: Probe,
    noProgress: nat, ghost visit: Visit)
    returns (stop: Option<Reason>, merged: Extracted, probe: Probe, stalled: nat, virtualized: bool, ghost after: Visit)
    requires Reading(request, visit, value, completed) && previous == visit.Last() && !EndInView(previous)
    requires IsKept(request, visit, value, completed) && noProgress == Stalled(visit.probes)
    modifies page`probeLog, page`readLog, page`ticks
    ensures after.Valid() && after.probes == visit.probes + [probe] && IsKept(request, after, merged, completed)
    ensures |after.samples| == |visit.samples| + 1 && after.samples[..|visit.samples|] == visit.samples
    ensures page.readLog == old(page.readLog) + [after.samples[|visit.samples|]] && page.probeLog == old(page.probeLog) + [probe]
    ensures stalled == Stalled(after.probes)
    ensures (request.format == Html && Replaced(after.probes)) == ((request.format == Html && Replaced(visit.probes)) || virtualized)
    ensures stop.Some? ==> StopJustified(request, stop.value, after, merged, completed, 0, page.TimedOut(deadline))
    ensures stop.Some? ==> stop.value in {TimeLimit, ByteLimit, NoProgress}
    ensures stop.None? ==> Reading(request, after, merged, completed) && !page.TimedOut(deadline)
    ensures stop.None? ==> stalled < request.NoProgressLimit() || EndInView(probe)
  {
    ghost var read;
    merged, probe, stalled, virtualized, read := TakeSample(request, page, completed, value, previous, noProgress, visit);
    after := Visit(visit.probes + [probe], visit.samples + [read]);
    var now := page.Now();
    stop :=
      if now >= deadline then Some(TimeLimit)
      else if ReachedByteLimit(request.MaxBytes(), completed, ValueBytes(merged), probe.contentBytes) then Some(ByteLimit)
      else if stalled >= request.NoProgressLimit() && !AtEnd(probe) then Some(NoProgress)
      else None;
  }

  method BeforeScroll(request: Request, page: Page, deadline: int, scrolls: nat) returns (end: Option<PageEnd>)
    modifies page`ticks, page`checks
    ensures end.None? ==> scrolls < request.MaxScrolls()
    ensures end.Some? ==> end.value in {Aborted, Stopped(TimeLimit), Stopped(ScrollLimit)}
    ensures end == Some(Stopped(TimeLimit)) ==> page.TimedOut(deadline)
    ensures end == Some(Stopped(ScrollLimit)) ==> scrolls >= request.MaxScrolls()
  {
    var active := page.AssertActive();
    if !active { return Some(Aborted); }
    var now := page.Now();
    if now >= deadline { return Some(Stopped(TimeLimit)); }
    if scrolls >= request.MaxScrolls() { return Some(Stopped(ScrollLimit)); }
    return None;
  }

  lemma LogContinues(earlier: seq<Extracted>, before: seq<Extracted>, samples: seq<Extracted>, log: seq<Extracted>)
    requires |samples| == |before| + 1 && samples[..|before|] == before && log == earlier + before + [samples[|before|]]
    ensures log == earlier + samples
  {
    assert samples == before + [samples[|before|]];
  }

  lemma ProbesContinue(earlier: seq<Probe>, probes: seq<Probe>, last: Probe, log: seq<Probe>)
    requires probes != [] && probes[|probes| - 1] == last && log == earlier + probes[..|probes| - 1] + [last]
    ensures log == earlier + probes
  {
    assert probes == probes[..|probes| - 1] + [last];
  }

  /** Scrolls an opened page until its end is in view or a limit is met. `earlier` is the log
      before the page. */
  method ScrollToEnd(request: Request, page: Page, deadline: int, completed: nat, initial: Extracted, first: Probe, scrollsBefore: nat,
    ghost start: Visit, ghost earlier: seq<Extracted>, ghost probed: seq<Probe>)
    returns (end: PageEnd, value: Extracted, scrolls: nat, probe: Probe, ghost visit: Visit)
    requires Reading(request, start, initial, completed) && IsKept(request, start, initial, completed)
    requires first == start.Last() && start.probes == [first] && !page.TimedOut(deadline) && scrollsBefore <= request.MaxScrolls()
    requires page.readLog == earlier + start.samples && page.probeLog == probed + start.probes
    modifies page`probeLog, page`readLog, page`ticks, page`checks
    ensures visit.Valid() && probe == visit.Last() && IsKept(request, visit, value, completed)
    ensures page.readLog == earlier + visit.samples && page.probeLog == probed + visit.probes
    ensures scrolls == scrollsBefore + |visit.probes| - 1 <= request.MaxScrolls()
    ensures end.Stopped? ==> StopJustified(request, end.reason, visit, value, completed, scrolls, page.TimedOut(deadline))
    ensures end.Finished? ==>
      && Reading(request, visit, value, completed) && EndInView(probe) && !page.TimedOut(deadline)
      && end.virtualized == (request.format == Html && Replaced(visit.probes))
  {
    scrolls, value, probe, visit := scrollsBefore, initial, first, start;
    var stop: Option<Reason>;
    var noProgress, virtualized := 0, false;
    while !AtEnd(probe)
      invariant Reading(request, visit, value, completed) && probe == visit.Last() && !page.TimedOut(deadline)
      invariant IsKept(request, visit, value, completed)
      invariant page.readLog == earlier + visit.samples && page.probeLog == probed + visit.probes
      invariant scrolls == scrollsBefore + |visit.probes| - 1 <= request.MaxScrolls()
      invariant noProgress == Stalled(visit.probes)
      invariant virtualized == (request.format == Html && Replaced(visit.probes))
      decreases request.MaxScrolls() - scrolls
    {
      var barred := BeforeScroll(request, page, deadline, scrolls);
      if barred.Some? {
        end := barred.value;
        return;
      }
      scrolls := scrolls + 1;
      ghost var before := visit.samples;
      var replaced: bool;
      stop, value, probe, noProgress, replaced, visit :=
        Scroll(request, page, deadline, completed, value, probe, noProgress, visit);
      LogContinues(earlier, before, visit.samples, page.readLog);
      ProbesContinue(probed, visit.probes, probe, page.probeLog);
      virtualized := virtualized || replaced;
      if stop.Some? {
        end := Stopped(stop.value);
        return;
      }
    }
    end := Finished(virtualized);
  }

  method ReadPage(request: Request, page: Page, deadline: int, completed: nat, scrollsBefore: nat)
    returns (end: PageEnd, value: Extracted, scrolls: nat, probe: Probe, ghost visit: Visit)
    requires completed < request.MaxBytes() && scrollsBefore <= request.MaxScrolls()
    modifies page`probeLog, page`readLog, page`ticks, page`checks
    ensures !end.Aborted? ==> visit.Valid() && probe == visit.Last() && IsKept(request, visit, value, completed)
    ensures !end.Aborted? ==> page.readLog == old(page.readLog) + visit.samples && page.probeLog == old(page.probeLog) + visit.probes
    ensures !end.Aborted? ==> scrolls == scrollsBefore + |visit.probes| - 1 <= request.MaxScrolls()
    ensures end.Stopped? ==> StopJustified(request, end.reason, visit, value, completed, scrolls, page.TimedOut(deadline))
    ensures end.Finished? ==>
      && Reading(request, visit, value, completed) && EndInView(probe) && !page.TimedOut(deadline)
      && end.virtualized == (request.format == Html && Replaced(visit.probes))
  {
    scrolls, value, probe, visit := scrollsBefore, Other(0), NOTHING_SEEN, Visit([], []);
    var active := page.AssertActive();
    if !active {
      end := Aborted;
      return;
    }
    var stop: Option<Reason>;
    stop, value, probe, visit := OpenPage(request, page, deadline, completed);
    if stop.Some? {
      end := Stopped(stop.value);
      return;
    }
    end, value, scrolls, probe, visit :=
      ScrollToEnd(request, page, deadline, completed, value, probe, scrollsBefore, visit, old(page.readLog), old(page.probeLog));
  }

  // ---------------------------------------------------------------- all pages

  datatype Verdict = Verdict(status: Status, reason: Reason, paginationAvailable: bool)

  /** What a page read to its end leads to; None when its link is to be followed. */
  function AfterPage(request: Request, canNavigate: bool, probe: Probe, virtualized: bool, pages: nat, seen: bool): Option<Verdict> {
    if virtualized then Some(Verdict(Partial, VirtualizedContent, HasNext(probe)))
    else if !HasNext(probe) then
      Some(Verdict(Complete, if request.mode.DocumentAndPagination? then PaginationEnd else EndOfDocument, false))
    else if !request.mode.DocumentAndPagination? then Some(Verdict(Partial, PaginationAvailable, true))
    else if request.format != TextFormat || !canNavigate then Some(Verdict(Partial, UnsafePagination, true))
    else if pages >= request.MaxPages() then Some(Verdict(Partial, PageLimit, true))
    else if seen then Some(Verdict(Partial, Cycle, true))
    else None
  }

  /** Between pages: every page so far was read to its end and left through a new link. */
  ghost predicate Between(request: Request, visits: seq<Visit>, values: seq<Extracted>, links: seq<Str>, completed: nat,
    scrolls: nat)
  {
    && ValidVisits(visits) && |visits| == |values| == |links| < request.MaxPages()
    && Followed(visits, links)
    && completed == TotalBytes(values) < request.MaxBytes()
    && scrolls == Scrolls(visits) <= request.MaxScrolls()
    && KeptPages(visits, values, request.format, request.MaxBytes())
    && (AllSingleByte(visits) ==> PagesKeptWhole(visits, values, request.format))
  }

  /** What a returned extraction promises. */
  ghost predicate Honest(request: Request, canNavigate: bool, visits: seq<Visit>, values: seq<Extracted>, links: seq<Str>,
    timedOut: bool, r: Completed)
  {
    && visits != [] && ValidVisits(visits) && |values| == |visits|
    && r.pages == |visits| <= request.MaxPages()
    && r.scrolls == Scrolls(visits) <= request.MaxScrolls()
    && r.value == Truncated(Combined(values, request.format), request.format, request.MaxBytes())
    && r.bytes == ValueBytes(r.value)
    && (r.value.Chars? && request.format != Json ==> r.bytes <= request.MaxBytes())
    && Justified(request, canNavigate, visits, values, links, timedOut, r.reason)
    && Followed(visits, links) && |visits| <= |links| + 1 && |links| < request.MaxPages()
    && KeptPages(visits, values, request.format, request.MaxBytes())
    && (r.status == Complete ==> ValueBytes(Combined(values, request.format)) <= request.MaxBytes())
    && (r.status == Complete <==> r.reason in {EndOfDocument, PaginationEnd})
    && (r.status == Complete ==> !timedOut && visits[|visits| - 1].Last().contentBytes < request.MaxBytes())
    && (r.paginationAvailable <==> visits[|visits| - 1].Last().nextUrl != None && visits[|visits| - 1].Last().nextUrl != Some([]))
    && (r.status == Complete && AllSingleByte(visits) ==>
          && PagesKeptWhole(visits, values, request.format)
          && r.value == Combined(values, request.format))
  }

  lemma AppendVisit(request: Request, visits: seq<Visit>, values: seq<Extracted>, links: seq<Str>, completed: nat,
    scrollsBefore: nat, visit: Visit, value: Extracted, scrolls: nat)
    requires Between(request, visits, values, links, completed, scrollsBefore)
    requires visit.Valid() && scrolls == scrollsBefore + |visit.probes| - 1 && IsKept(request, visit, value, completed)
    ensures KeptPages(visits + [visit], values + [value], request.format, request.MaxBytes())
    ensures ValidVisits(visits + [visit]) && |visits + [visit]| == |values + [value]| == |links| + 1
    ensures Followed(visits + [visit], links)
    ensures TotalBytes(values + [value]) == completed + ValueBytes(value)
    ensures Scrolls(visits + [visit]) == scrolls
    ensures AllReads(visits + [visit]) == AllReads(visits) + visit.samples
    ensures AllSingleByte(visits + [visit]) ==> AllSingleByte(visits) && AllSmall(visit.samples)
  {
    var all := visits + [visit];
    assert all[..|visits|] == visits && all[|visits|] == visit;
    assert (values + [value])[..|values|] == values;
    assert forall i | 0 <= i < |visits| :: all[i] == visits[i];
    FollowedWider(visits, links, visit);
  }

  lemma AppendKeepsWhole(request: Request, visits: seq<Visit>, values: seq<Extracted>, completed: nat, visit: Visit, value: Extracted)
    requires ValidVisits(visits) && ValidVisits(visits + [visit]) && |visits| == |values|
    requires AllSingleByte(visits) ==> PagesKeptWhole(visits, values, request.format)
    requires Reading(request, visit, value, completed)
    ensures AllSingleByte(visits + [visit]) ==> PagesKeptWhole(visits + [visit], values + [value], request.format)
  {
    var all := visits + [visit];
    assert all[|visits|] == visit;
    assert forall i | 0 <= i < |visits| :: all[i] == visits[i];
  }

  lemma WholeFits(request: Request, visits: seq<Visit>, values: seq<Extracted>)
    requires values != [] && |values| == |visits| && ValidVisits(visits) && AllSingleByte(visits)
    requires PagesKeptWhole(visits, values, request.format)
    requires ValueBytes(Combined(values, request.format)) <= request.MaxBytes()
    ensures Truncated(Combined(values, request.format), request.format, request.MaxBytes()) == Combined(values, request.format)
  {
    var combined := Combined(values, request.format);
    if combined.Record? {
      var k := |values| - 1;
      PageTextSingleByte(visits[k].samples, request.format);
      PageTextSingleByte(visits[0].samples, request.format);
    }
    FitsUncut(combined, request.format, request.MaxBytes());
  }

  /** A page that stopped early gives an honest result. */
  lemma StoppedIsHonest(request: Request, canNavigate: bool, visits: seq<Visit>, values: seq<Extracted>, links: seq<Str>,
    completed: nat, scrollsBefore: nat, visit: Visit, value: Extracted, scrolls: nat, reason: Reason, timedOut: bool, r: Completed)
    requires Between(request, visits, values, links, completed, scrollsBefore) && |visits| < request.MaxPages()
    requires visit.Valid() && scrolls == scrollsBefore + |visit.probes| - 1 <= request.MaxScrolls()
    requires IsKept(request, visit, value, completed)
    requires StopJustified(request, reason, visit, value, completed, scrolls, timedOut)
    requires r.value == Truncated(Combined(values + [value], request.format), request.format, request.MaxBytes())
    requires r.bytes == ValueBytes(r.value) && r.pages == |visits| + 1 && r.scrolls == scrolls && r.status == Partial
    requires r.paginationAvailable == HasNext(visit.Last())
    requires r.reason == if ValueBytes(Combined(values + [value], request.format)) > request.MaxBytes() then ByteLimit else reason
    ensures Honest(request, canNavigate, visits + [visit], values + [value], links, timedOut, r)
  {
    AppendVisit(request, visits, values, links, completed, scrollsBefore, visit, value, scrolls);
    var combined := Combined(values + [value], request.format);
    if combined.Chars? && request.format != Json { CutFits(combined, request.format, request.MaxBytes()); }
  }

  ghost predicate SeenBefore(visits: seq<Visit>, links: seq<Str>, last: Visit)
    requires ValidVisits(visits) && last.Valid()
  {
    || (last.Last().nextUrl.Some? && last.Last().nextUrl.value in links)
    || exists i | 0 <= i < |visits| :: visits[i].Last().signature == last.Last().signature
  }

  /** So does a page read to its end that leads nowhere further, and a link that was refused. */
  lemma VerdictIsHonest(request: Request, canNavigate: bool, visits: seq<Visit>, values: seq<Extracted>, links: seq<Str>,
    completed: nat, scrollsBefore: nat, visit: Visit, value: Extracted, scrolls: nat, virtualized: bool, verdict: Verdict,
    followed: seq<Str>, timedOut: bool, r: Completed)
    requires Between(request, visits, values, links, completed, scrollsBefore) && |visits| < request.MaxPages()
    requires !request.mode.Visible?
    requires scrolls == scrollsBefore + |visit.probes| - 1 <= request.MaxScrolls()
    requires Reading(request, visit, value, completed) && EndInView(visit.Last()) && !timedOut
    requires IsKept(request, visit, value, completed)
    requires virtualized == (request.format == Html && Replaced(visit.probes))
    requires
      var next := AfterPage(request, canNavigate, visit.Last(), virtualized, |visits| + 1, SeenBefore(visits, links, visit));
      || (next == Some(verdict) && followed == links)
      || (next.None? && verdict == Verdict(Partial, UnsafePagination, true) && followed == links + [NextOf(visit.Last())])
    requires r.value == Truncated(Combined(values + [value], request.format), request.format, request.MaxBytes())
    requires r.bytes == ValueBytes(r.value) && r.pages == |visits| + 1 && r.scrolls == scrolls
    requires r.paginationAvailable == verdict.paginationAvailable
    requires var cut := ValueBytes(Combined(values + [value], request.format)) > request.MaxBytes();
             r.status == (if cut then Partial else verdict.status) && r.reason == (if cut then ByteLimit else verdict.reason)
    ensures Honest(request, canNavigate, visits + [visit], values + [value], followed, timedOut, r)
  {
    var all, kept := visits + [visit], values + [value];
    AppendVisit(request, visits, values, links, completed, scrollsBefore, visit, value, scrolls);
    AppendKeepsWhole(request, visits, values, completed, visit, value);
    assert forall i | 0 <= i < |visits| :: all[i] == visits[i];
    assert all[|visits|] == visit;
    if followed != links {
      LinkFollowed(request, visits, values, links, completed, scrollsBefore, visit, value, scrolls, NextOf(visit.Last()));
    }
    var combined := Combined(kept, request.format);
    if combined.Chars? && request.format != Json { CutFits(combined, request.format, request.MaxBytes()); }
    if AllSingleByte(all) && ValueBytes(combined) <= request.MaxBytes() { WholeFits(request, all, kept); }
  }

  lemma LinkFollowed(request: Request, visits: seq<Visit>, values: seq<Extracted>, links: seq<Str>, completed: nat,
    scrollsBefore: nat, visit: Visit, value: Extracted, scrolls: nat, url: Str)
    requires Between(request, visits, values, links, completed, scrollsBefore) && |visits| + 1 < request.MaxPages()
    requires scrolls == scrollsBefore + |visit.probes| - 1 <= request.MaxScrolls()
    requires Reading(request, visit, value, completed) && EndInView(visit.Last()) && IsKept(request, visit, value, completed)
    requires visit.Last().nextUrl == Some(url) && url != [] && !SeenBefore(visits, links, visit)
    ensures Between(request, visits + [visit], values + [value], links + [url], completed + ValueBytes(value), scrolls)
  {
    AppendVisit(request, visits, values, links, completed, scrollsBefore, visit, value, scrolls);
    AppendKeepsWhole(request, visits, values, completed, visit, value);
    FollowedAppend(visits, links, visit, url);
  }

  lemma FollowedAppend(visits: seq<Visit>, links: seq<Str>, visit: Visit, url: Str)
    requires ValidVisits(visits) && visit.Valid() && Followed(visits, links) && |links| == |visits|
    requires visit.Last().nextUrl == Some(url) && url != [] && EndInView(visit.Last()) && !SeenBefore(visits, links, visit)
    ensures ValidVisits(visits + [visit]) && Followed(visits + [visit], links + [url])
  {
    var all, urls := visits + [visit], links + [url];
    forall i | 0 <= i < |urls| ensures LeftThrough(all, urls, i) {
      assert i < |links| ==> LeftThrough(visits, links, i);
    }
    forall i, j | 0 <= i < j < |urls| ensures Different(all, urls, i, j) {
      assert LeftThrough(visits, links, i);
      assert j < |links| ==> Different(visits, links, i, j);
    }
  }

  lemma FollowedWider(visits: seq<Visit>, links: seq<Str>, visit: Visit)
    requires ValidVisits(visits) && visit.Valid() && Followed(visits, links)
    ensures ValidVisits(visits + [visit]) && Followed(visits + [visit], links)
  {
    var all := visits + [visit];
    forall i | 0 <= i < |links| ensures LeftThrough(all, links, i) { assert LeftThrough(visits, links, i); }
    forall i, j | 0 <= i < j < |links| ensures Different(all, links, i, j) { assert Different(visits, links, i, j); }
  }

  ghost predicate Recorded(visits: seq<Visit>, links: seq<Str>, urls: set<Str>, signatures: set<Str>)
    requires ValidVisits(visits)
  {
    && urls == (set u | u in links)
    && signatures == (set i | 0 <= i < |visits| :: visits[i].Last().signature)
  }

  datatype Turn = Gone | Done(result: Completed) | Onward

  lemma SeenIsRecorded(visits: seq<Visit>, links: seq<Str>, urls: set<Str>, signatures: set<Str>, visit: Visit)
    requires ValidVisits(visits) && visit.Valid() && Recorded(visits, links, urls, signatures)
    ensures var probe := visit.Last();
            probe.nextUrl.Some? ==>
              SeenBefore(visits, links, visit) == (probe.nextUrl.value in urls || probe.signature in signatures)
  {
  }

  method EndPage(request: Request, ghost canNavigate: bool, pageValues: seq<Extracted>, ghost completed: nat, ghost scrollsBefore: nat,
    value: Extracted, scrolls: nat, ghost virtualized: bool, v: Verdict, ghost visits: seq<Visit>, ghost links: seq<Str>,
    ghost visit: Visit, ghost followed: seq<Str>) returns (ended: Completed)
    requires !request.mode.Visible?
    requires Between(request, visits, pageValues, links, completed, scrollsBefore) && |visits| < request.MaxPages()
    requires Reading(request, visit, value, completed) && EndInView(visit.Last()) && IsKept(request, visit, value, completed)
    requires virtualized == (request.format == Html && Replaced(visit.probes))
    requires scrolls == scrollsBefore + |visit.probes| - 1 <= request.MaxScrolls()
    requires
      var next := AfterPage(request, canNavigate, visit.Last(), virtualized, |visits| + 1, SeenBefore(visits, links, visit));
      || (next == Some(v) && followed == links)
      || (next.None? && v == Verdict(Partial, UnsafePagination, true) && followed == links + [NextOf(visit.Last())])
    ensures Honest(request, canNavigate, visits + [visit], pageValues + [value], followed, false, ended)
  {
    ended := ResultOf(request, pageValues + [value], v.status, v.reason, |pageValues| + 1, scrolls, v.paginationAvailable);
    VerdictIsHonest(request, canNavigate, visits, pageValues, links, completed, scrollsBefore, visit, value, scrolls,
      virtualized, v, followed, false, ended);
  }

  method FollowLink(request: Request, page: Page, ghost pageValues: seq<Extracted>, ghost completed: nat, ghost scrollsBefore: nat,
    ghost value: Extracted, ghost scrolls: nat, url: Str, ghost visits: seq<Visit>, ghost links: seq<Str>, ghost visit: Visit)
    returns (ok: bool)
    requires Between(request, visits, pageValues, links, completed, scrollsBefore) && |visits| + 1 < request.MaxPages()
    requires scrolls == scrollsBefore + |visit.probes| - 1 <= request.MaxScrolls()
    requires Reading(request, visit, value, completed) && EndInView(visit.Last()) && IsKept(request, visit, value, completed)
    requires visit.Last().nextUrl == Some(url) && url != [] && !SeenBefore(visits, links, visit)
    modifies page`navigated
    ensures page.navigated == old(page.navigated) + [url]
    ensures Between(request, visits + [visit], pageValues + [value], links + [url], completed + ValueBytes(value), scrolls)
  {
    ok := page.NavigateNext(url);
    LinkFollowed(request, visits, pageValues, links, completed, scrollsBefore, visit, value, scrolls, url);
  }

  /** After a page read to its end: stop, or follow its link. */
  method LeavePage(request: Request, page: Page, deadline: int, pageValues: seq<Extracted>, completed: nat, scrollsBefore: nat,
    visitedUrls: set<Str>, visitedSignatures: set<Str>, value: Extracted, scrolls: nat, probe: Probe, virtualized: bool,
    ghost visits: seq<Visit>, ghost links: seq<Str>, ghost visit: Visit)
    returns (turn: Turn, ghost followed: seq<Str>)
    requires !request.mode.Visible?
    requires Between(request, visits, pageValues, links, completed, scrollsBefore) && |visits| < request.MaxPages()
    requires Recorded(visits, links, visitedUrls, visitedSignatures)
    requires Reading(request, visit, value, completed) && probe == visit.Last() && EndInView(probe) && !page.TimedOut(deadline)
    requires IsKept(request, visit, value, completed)
    requires virtualized == (request.format == Html && Replaced(visit.probes))
    requires scrolls == scrollsBefore + |visit.probes| - 1 <= request.MaxScrolls()
    modifies page`navigated
    ensures !turn.Gone?
    ensures followed in {links, links + [NextOf(probe)]} && page.navigated == old(page.navigated) + followed[|links|..]
    ensures turn.Done? ==> Honest(request, page.canNavigate, visits + [visit], pageValues + [value], followed, false, turn.result)
    ensures turn.Onward? ==> followed == links + [NextOf(probe)]
    ensures turn.Onward? ==>
      Between(request, visits + [visit], pageValues + [value], followed, completed + ValueBytes(value), scrolls)
  {
    followed := links;
    var seen := probe.nextUrl.Some? && (probe.nextUrl.value in visitedUrls || probe.signature in visitedSignatures);
    var verdict := AfterPage(request, page.canNavigate, probe, virtualized, |pageValues| + 1, seen);
    SeenIsRecorded(visits, links, visitedUrls, visitedSignatures, visit);
    if verdict.None? {
      var ok := FollowLink(request, page, pageValues, completed, scrollsBefore, value, scrolls, probe.nextUrl.value, visits, links, visit);
      followed := links + [probe.nextUrl.value];
      if ok {
        turn := Onward;
        return;
      }
      verdict := Some(Verdict(Partial, UnsafePagination, true));
    }
    var ended := EndPage(request, page.canNavigate, pageValues, completed, scrollsBefore, value, scrolls, virtualized, verdict.value,
      visits, links, visit, followed);
    turn := Done(ended);
  }

  method StopPage(request: Request, ghost canNavigate: bool, pageValues: seq<Extracted>, ghost completed: nat, ghost scrollsBefore: nat,
    value: Extracted, scrolls: nat, probe: Probe, reason: Reason, ghost visits: seq<Visit>, ghost links: seq<Str>, ghost visit: Visit,
    ghost timedOut: bool) returns (stopped: Completed)
    requires Between(request, visits, pageValues, links, completed, scrollsBefore) && |visits| < request.MaxPages()
    requires visit.Valid() && probe == visit.Last() && scrolls == scrollsBefore + |visit.probes| - 1 <= request.MaxScrolls()
    requires IsKept(request, visit, value, completed) && StopJustified(request, reason, visit, value, completed, scrolls, timedOut)
    ensures Honest(request, canNavigate, visits + [visit], pageValues + [value], links, timedOut, stopped)
  {
    stopped := ResultOf(request, pageValues + [value], Partial, reason, |pageValues| + 1, scrolls, HasNext(probe));
    StoppedIsHonest(request, canNavigate, visits, pageValues, links, completed, scrollsBefore, visit, value, scrolls,
      reason, timedOut, stopped);
  }

  /** One page: read it, then stop, or follow its link. */
  method VisitPage(request: Request, page: Page, deadline: int, pageValues: seq<Extracted>, completed: nat, scrollsBefore: nat,
    visitedUrls: set<Str>, visitedSignatures: set<Str>, ghost visits: seq<Visit>, ghost links: seq<Str>)
    returns (turn: Turn, value: Extracted, scrolls: nat, probe: Probe, ghost visit: Visit, ghost followed: seq<Str>)
    requires !request.mode.Visible?
    requires Between(request, visits, pageValues, links, completed, scrollsBefore) && |visits| < request.MaxPages()
    requires Recorded(visits, links, visitedUrls, visitedSignatures)
    modifies page
    ensures !turn.Gone? ==> visit.Valid() && probe == visit.Last() && page.readLog == old(page.readLog) + visit.samples
    ensures !turn.Gone? ==> page.probeLog == old(page.probeLog) + visit.probes
    ensures !turn.Gone? ==> followed in {links, links + [NextOf(probe)]} && page.navigated == old(page.navigated) + followed[|links|..]
    ensures turn.Done? ==>
      Honest(request, page.canNavigate, visits + [visit], pageValues + [value], followed, page.TimedOut(deadline), turn.result)
    ensures turn.Onward? ==> followed == links + [NextOf(probe)]
    ensures turn.Onward? ==>
      Between(request, visits + [visit], pageValues + [value], followed, completed + ValueBytes(value), scrolls)
  {
    var end;
    followed := links;
    end, value, scrolls, probe, visit := ReadPage(request, page, deadline, completed, scrollsBefore);
    if end.Aborted? {
      turn := Gone;
      return;
    }
    if end.Stopped? {
      var stopped := StopPage(request, page.canNavigate, pageValues, completed, scrollsBefore, value, scrolls, probe, end.reason,
        visits, links, visit, page.TimedOut(deadline));
      turn := Done(stopped);
      return;
    }
    turn, followed := LeavePage(request, page, deadline, pageValues, completed, scrollsBefore, visitedUrls, visitedSignatures, value,
      scrolls, probe, end.virtualized, visits, links, visit);
  }

  lemma RecordAnother(visits: seq<Visit>, links: seq<Str>, urls: set<Str>, signatures: set<Str>, visit: Visit, url: Str)
    requires ValidVisits(visits) && ValidVisits(visits + [visit]) && visit.Valid()
    requires Recorded(visits, links, urls, signatures)
    ensures Recorded(visits + [visit], links + [url], urls + {url}, signatures + {visit.Last().signature})
  {
    var all := visits + [visit];
    assert forall i | 0 <= i < |visits| :: all[i] == visits[i];
    assert all[|visits|] == visit;
  }

  lemma NothingYet(request: Request)
    ensures Between(request, [], [], [], 0, 0) && Recorded([], [], {}, {}) && AllReads([]) == [] && AllProbes([]) == []
  {
  }

  method ExtractVisible(request: Request, page: Page) returns (r: Result<Completed, ExtractError>)
    modifies page`checks, page`readLog
    ensures r.Success? ==>
      var value := Truncated(page.samples(|old(page.readLog)|), request.format, request.MaxBytes());
      var bytes := ValueBytes(value);
      r.value == Completed(value, Partial, if bytes >= request.MaxBytes() then ByteLimit else VisibleOnly, 1, 0, bytes, false)
  {
    var active := page.AssertActive();
    if !active { return Failure(Cancelled); }
    var read := page.Read();
    var value := TruncateValue(read, request.format, request.MaxBytes());
    var bytes := ValueBytes(value);
    return Success(Completed(value, Partial, if bytes >= request.MaxBytes() then ByteLimit else VisibleOnly, 1, 0, bytes, false));
  }

  lemma LogExtends(earlier: seq<Extracted>, before: seq<Visit>, visit: Visit, log: seq<Extracted>)
    requires log == earlier + AllReads(before) + visit.samples
    ensures log == earlier + AllReads(before + [visit])
  {
    assert (before + [visit])[..|before|] == before;
  }

  lemma ProbesExtend(earlier: seq<Probe>, before: seq<Visit>, visit: Visit, log: seq<Probe>)
    requires log == earlier + AllProbes(before) + visit.probes
    ensures log == earlier + AllProbes(before + [visit])
  {
    assert (before + [visit])[..|before|] == before;
  }

  lemma LinksExtend(earlier: seq<Str>, links: seq<Str>, followed: seq<Str>, navigated: seq<Str>)
    requires IsPrefix(links, followed) && navigated == earlier + links + followed[|links|..]
    ensures navigated == earlier + followed
  {
    assert links + followed[|links|..] == followed;
  }

  /** `visits`, `values` and `links` are what was seen, kept and followed. The loop over the pages
      never ends by its own condition: a page limit is noticed before the link is followed. */
  method ExtractDocument(request: Request, page: Page)
    returns (r: Result<Completed, ExtractError>, ghost visits: seq<Visit>, ghost values: seq<Extracted>, ghost links: seq<Str>)
    requires !request.mode.Visible?
    modifies page
    ensures r.Success? ==>
      Honest(request, page.canNavigate, visits, values, links,
        page.TimedOut(page.clock(old(page.ticks)) + PositiveInteger(request.timeoutMs)), r.value)
    ensures r.Success? ==> page.readLog == old(page.readLog) + AllReads(visits)
    ensures r.Success? ==> page.probeLog == old(page.probeLog) + AllProbes(visits)
    ensures r.Success? ==> page.navigated == old(page.navigated) + links
  {
    visits, values, links := [], [], [];
    var start := page.Now();
    var deadline := start + PositiveInteger(request.timeoutMs);
    var completed: nat, scrolls: nat := 0, 0;
    var pageValues: seq<Extracted> := [];
    var visitedUrls: set<Str>, visitedSignatures: set<Str> := {}, {};
    NothingYet(request);
    r := Failure(Cancelled);
    while |pageValues| < request.MaxPages()
      invariant pageValues == values && Between(request, visits, values, links, completed, scrolls)
      invariant page.readLog == old(page.readLog) + AllReads(visits)
      invariant page.probeLog == old(page.probeLog) + AllProbes(visits)
      invariant page.navigated == old(page.navigated) + links
      invariant Recorded(visits, links, visitedUrls, visitedSignatures)
      decreases request.MaxPages() - |pageValues|
    {
      var turn, value, probe;
      ghost var visit, followed;
      turn, value, scrolls, probe, visit, followed := VisitPage(request, page, deadline, pageValues, completed, scrolls,
        visitedUrls, visitedSignatures, visits, links);
      if turn.Gone? {
        r := Failure(Cancelled);
        return;
      }
      LogExtends(old(page.readLog), visits, visit, page.readLog);
      ProbesExtend(old(page.probeLog), visits, visit, page.probeLog);
      LinksExtend(old(page.navigated), links, followed, page.navigated);
      pageValues := pageValues + [value];
      if turn.Done? {
        visits, values, links, r := visits + [visit], values + [value], followed, Success(turn.result);
        return;
      }
      RecordAnother(visits, links, visitedUrls, visitedSignatures, visit, NextOf(probe));
      visitedUrls := visitedUrls + {NextOf(probe)};
      visitedSignatures := visitedSignatures + {probe.signature};
      completed := completed + ValueBytes(value);
      visits, values, links := visits + [visit], values + [value], followed;
    }
    assert false;
  }

  /** How much of the page lies below what is shown. */
  function Below(p: Probe): real {
    p.scrollSize - (p.scrollTop + p.viewportSize)
  }

  /** On every page scrolling went on while more than two units were below; complete means that
      no page has more than two left, and a limit on scrolling that the last one has. */
  ghost predicate SeenToTheEnd(visits: seq<Visit>, r: Completed) {
    && visits != [] && ValidVisits(visits)
    && (forall i, j | 0 <= i < |visits| && 0 <= j < |visits[i].probes| - 1 :: Below(visits[i].probes[j]) > 2.0)
    && (r.status == Complete ==> forall i | 0 <= i < |visits| :: Below(visits[i].Last()) <= 2.0)
    && (r.reason == ScrollLimit || r.reason == NoProgress ==> Below(visits[|visits| - 1].Last()) > 2.0)
  }

  lemma HonestAboutTheEnd(request: Request, canNavigate: bool, visits: seq<Visit>, values: seq<Extracted>, links: seq<Str>,
    timedOut: bool, r: Completed)
    requires Honest(request, canNavigate, visits, values, links, timedOut, r)
    ensures SeenToTheEnd(visits, r)
  {
    ScrolledOnWhileBelow(visits);
    if r.status == Complete { LeftAtTheEnd(visits, links); }
  }

  lemma ScrolledOnWhileBelow(visits: seq<Visit>)
    requires ValidVisits(visits)
    ensures forall i, j | 0 <= i < |visits| && 0 <= j < |visits[i].probes| - 1 :: Below(visits[i].probes[j]) > 2.0
  {
    forall i, j | 0 <= i < |visits| && 0 <= j < |visits[i].probes| - 1 ensures Below(visits[i].probes[j]) > 2.0 {
      assert visits[i].Valid();
    }
  }

  lemma LeftAtTheEnd(visits: seq<Visit>, links: seq<Str>)
    requires ValidVisits(visits) && visits != [] && Followed(visits, links) && |visits| <= |links| + 1
    requires EndInView(visits[|visits| - 1].Last())
    ensures forall i | 0 <= i < |visits| :: Below(visits[i].Last()) <= 2.0
  {
    forall i | 0 <= i < |visits| ensures Below(visits[i].Last()) <= 2.0 {
      assert i < |links| ==> LeftThrough(visits, links, i);
    }
  }

  method Extract(request: Request, page: Page)
    returns (r: Result<Completed, ExtractError>, ghost visits: seq<Visit>, ghost values: seq<Extracted>, ghost links: seq<Str>)
    modifies page
    ensures r.Success? && request.mode.Visible? ==>
      var value := Truncated(page.samples(|old(page.readLog)|), request.format, request.MaxBytes());
      var bytes := ValueBytes(value);
      r.value == Completed(value, Partial, if bytes >= request.MaxBytes() then ByteLimit else VisibleOnly, 1, 0, bytes, false)
    ensures r.Success? && !request.mode.Visible? ==>
      && Honest(request, page.canNavigate, visits, values, links,
           page.TimedOut(page.clock(old(page.ticks)) + PositiveInteger(request.timeoutMs)), r.value)
      && SeenToTheEnd(visits, r.value)
      && page.readLog == old(page.readLog) + AllReads(visits)
      && page.probeLog == old(page.probeLog) + AllProbes(visits)
      && page.navigated == old(page.navigated) + links
  {
    if request.mode.Visible? {
      visits, values, links := [], [], [];
      r := ExtractVisible(request, page);
    } else {
      r, visits, values, links := ExtractDocument(request, page);
      if r.Success? {
        HonestAboutTheEnd(request, page.canNavigate, visits, values, links,
          page.TimedOut(page.clock(old(page.ticks)) + PositiveInteger(request.timeoutMs)), r.value);
      }
    }
  }

  // ---------------------------------------------------------------- nothing lost

  lemma {:induction false} PageHoldsRead(samples: seq<Extracted>, i: nat)
    requires i < |samples| && forall s | s in samples :: s.Chars?
    ensures PageText(samples, TextFormat).Chars?
    ensures Within(samples[i].s, PageText(samples, TextFormat).s)
    decreases |samples|
  {
    var n := |samples|;
    assert samples[n - 1] in samples;
    if n == 1 {
      WithinItself(samples[0].s);
    } else {
      var before := samples[..n - 1];
      assert forall s | s in before :: s in samples;
      PageHoldsRead(before, if i < n - 1 then i else 0);
      assert PageText(samples, TextFormat) == MergedWithinPage(PageText(before, TextFormat), samples[n - 1], TextFormat);
      MergeHolds(samples[i].s, PageText(before, TextFormat).s, samples[n - 1].s, i == n - 1);
    }
  }

  lemma {:induction false} JoinHoldsPage(pages: seq<Extracted>, i: nat, p: Str)
    requires i < |pages| && (forall v | v in pages :: v.Chars?) && Within(p, pages[i].s)
    ensures Within(p, JoinPages(pages))
    decreases |pages|
  {
    if |pages| > 1 {
      var rest := JoinPages(pages[1..]);
      if i == 0 {
        assert JoinPages(pages)[..|pages[0].s|] == pages[0].s;
        WithinPrefix(p, pages[0].s, JoinPages(pages));
      } else {
        JoinHoldsPage(pages[1..], i - 1, p);
        var before, after :| rest == before + p + after;
        assert JoinPages(pages) == (pages[0].s + [LF, LF] + before) + p + after;
      }
    }
  }

  ghost predicate AllText(visits: seq<Visit>) {
    forall i | 0 <= i < |visits| :: TextOnly(visits[i].samples)
  }

  predicate TextOnly(samples: seq<Extracted>) {
    forall s | s in samples :: s.Chars?
  }

  /** The texts of all pages, uncut. */
  function PageTexts(visits: seq<Visit>, format: Format): (r: seq<Extracted>)
    requires ValidVisits(visits)
    ensures |r| == |visits|
  {
    var n := |visits|;
    if n == 0 then [] else PageTexts(visits[..n - 1], format) + [PageText(visits[n - 1].samples, format)]
  }

  lemma TextStep(before: Extracted, sample: Extracted, limit: nat)
    requires before.Chars? && sample.Chars?
    ensures ValueBytes(before) <= ValueBytes(MergedWithinPage(before, sample, TextFormat))
    ensures ValueBytes(sample) <= ValueBytes(MergedWithinPage(before, sample, TextFormat))
  {
    MergeHoldsBytes(before.s, sample.s);
  }

  lemma TruncatedText(v: Extracted, limit: nat)
    requires v.Chars?
    ensures Truncated(v, TextFormat, limit).Chars? && ValueBytes(Truncated(v, TextFormat, limit)) <= limit
    ensures ValueBytes(v) <= limit ==> Truncated(v, TextFormat, limit) == v
  {
    CutFits(v, TextFormat, limit);
    if ValueBytes(v) <= limit { FitsUncut(v, TextFormat, limit); }
  }

  /** A page of any text is kept whole exactly when its text fits the limit, though every sample
      and every merge on the way is cut to it. */
  lemma {:induction false} PageWholeExactlyWhen(samples: seq<Extracted>, limit: nat)
    requires samples != [] && TextOnly(samples)
    ensures var text, kept := PageText(samples, TextFormat), KeptPage(samples, TextFormat, limit);
            && text.Chars? && kept.Chars? && ValueBytes(kept) <= limit
            && (kept == text <==> ValueBytes(text) <= limit)
    decreases |samples|
  {
    var n := |samples|;
    var last := samples[n - 1];
    assert last in samples;
    TruncatedText(last, limit);
    if n > 1 {
      var front := samples[..n - 1];
      PageWholeExactlyWhen(front, limit);
      var text, kept := PageText(front, TextFormat), KeptPage(front, TextFormat, limit);
      TextStep(text, last, limit);
      TruncatedText(MergedWithinPage(kept, Truncated(last, TextFormat, limit), TextFormat), limit);
    }
  }

  predicate AllChars(pages: seq<Extracted>) {
    forall p | p in pages :: p.Chars?
  }

  lemma LastPageWhole(visits: seq<Visit>, values: seq<Extracted>, maxBytes: nat)
    requires ValidVisits(visits) && |visits| == |values| > 0 && KeptPages(visits, values, TextFormat, maxBytes) && AllText(visits)
    ensures var n := |visits|;
            var text, value := PageText(visits[n - 1].samples, TextFormat), values[n - 1];
            && TotalBytes(values[..n - 1]) < maxBytes && text.Chars? && value.Chars?
            && (value == text <==> ValueBytes(text) <= RemainingBytes(maxBytes, TotalBytes(values[..n - 1])))
  {
    var n := |visits|;
    PageWholeExactlyWhen(visits[n - 1].samples, RemainingBytes(maxBytes, TotalBytes(values[..n - 1])));
  }

  lemma {:induction false} PagesAreText(visits: seq<Visit>, values: seq<Extracted>, maxBytes: nat)
    requires ValidVisits(visits) && |visits| == |values| && KeptPages(visits, values, TextFormat, maxBytes) && AllText(visits)
    ensures AllChars(PageTexts(visits, TextFormat)) && AllChars(values)
    decreases |visits|
  {
    var n := |visits|;
    if n > 0 {
      PagesAreText(visits[..n - 1], values[..n - 1], maxBytes);
      LastPageWhole(visits, values, maxBytes);
      OneMoreIsText(values);
      OneMoreIsText(PageTexts(visits, TextFormat));
    }
  }

  lemma OneMoreIsText(pages: seq<Extracted>)
    requires pages != [] && AllChars(pages[..|pages| - 1]) && pages[|pages| - 1].Chars?
    ensures AllChars(pages)
  {
    assert pages == pages[..|pages| - 1] + [pages[|pages| - 1]];
  }

  /** All pages are kept whole exactly when their texts together fit the limit. */
  lemma {:induction false} PagesWholeExactlyWhen(visits: seq<Visit>, values: seq<Extracted>, maxBytes: nat)
    requires ValidVisits(visits) && |visits| == |values| && KeptPages(visits, values, TextFormat, maxBytes) && AllText(visits)
    ensures values == PageTexts(visits, TextFormat) <==> TotalBytes(PageTexts(visits, TextFormat)) <= maxBytes
    decreases |visits|
  {
    var n := |visits|;
    if n > 0 {
      var before, kept := visits[..n - 1], values[..n - 1];
      FrontPages(visits, values, maxBytes);
      PagesWholeExactlyWhen(before, kept, maxBytes);
      LastPageWhole(visits, values, maxBytes);
      var texts, text := PageTexts(before, TextFormat), PageText(visits[n - 1].samples, TextFormat);
      assert PageTexts(visits, TextFormat) == texts + [text];
      WholeStep(texts, text, kept, values[n - 1], maxBytes);
    }
  }

  lemma FrontPages(visits: seq<Visit>, values: seq<Extracted>, maxBytes: nat)
    requires ValidVisits(visits) && |visits| == |values| > 0 && KeptPages(visits, values, TextFormat, maxBytes) && AllText(visits)
    ensures ValidVisits(visits[..|visits| - 1]) && AllText(visits[..|visits| - 1])
    ensures KeptPages(visits[..|visits| - 1], values[..|values| - 1], TextFormat, maxBytes)
    ensures values == values[..|values| - 1] + [values[|values| - 1]]
  {
    FrontVisits(visits);
    FrontAndLast(values);
  }

  lemma FrontVisits(visits: seq<Visit>)
    requires ValidVisits(visits) && visits != [] && AllText(visits)
    ensures ValidVisits(visits[..|visits| - 1]) && AllText(visits[..|visits| - 1])
  {
    var before := visits[..|visits| - 1];
    forall i | 0 <= i < |before| ensures before[i].Valid() && TextOnly(before[i].samples) {
      assert before[i] == visits[i] && TextOnly(visits[i].samples);
    }
  }

  lemma FrontAndLast(values: seq<Extracted>)
    requires values != []
    ensures values == values[..|values| - 1] + [values[|values| - 1]]
  {
  }

  lemma WholeStep(texts: seq<Extracted>, text: Extracted, kept: seq<Extracted>, value: Extracted, maxBytes: nat)
    requires |texts| == |kept| && (kept == texts <==> TotalBytes(texts) <= maxBytes) && TotalBytes(kept) < maxBytes
    requires value == text <==> ValueBytes(text) <= RemainingBytes(maxBytes, TotalBytes(kept))
    ensures kept + [value] == texts + [text] <==> TotalBytes(texts + [text]) <= maxBytes
  {
    AppendedTexts(texts, text, kept, value);
  }

  lemma AppendedTexts(texts: seq<Extracted>, text: Extracted, kept: seq<Extracted>, value: Extracted)
    requires |texts| == |kept|
    ensures TotalBytes(texts + [text]) == TotalBytes(texts) + ValueBytes(text)
    ensures kept + [value] == texts + [text] <==> kept == texts && value == text
  {
    assert (texts + [text])[..|texts|] == texts && (kept + [value])[..|kept|] == kept;
    assert (texts + [text])[|texts|] == text && (kept + [value])[|kept|] == value;
  }

  /** A text extraction reported complete returns the pages whole exactly when their texts
      together fit the limit; the byte-limit test lets the other case pass, see SlackRun. */
  lemma CompleteIsWholeExactlyWhen(request: Request, canNavigate: bool, visits: seq<Visit>, values: seq<Extracted>,
    links: seq<Str>, timedOut: bool, r: Completed)
    requires Honest(request, canNavigate, visits, values, links, timedOut, r) && r.status == Complete
    requires request.format == TextFormat && AllText(visits)
    ensures var texts := PageTexts(visits, TextFormat);
            && (values == texts <==> TotalBytes(texts) <= request.MaxBytes())
            && (r.value == Combined(texts, TextFormat) <==> TotalBytes(texts) <= request.MaxBytes())
  {
    var texts := PageTexts(visits, TextFormat);
    PagesAreText(visits, values, request.MaxBytes());
    PagesWholeExactlyWhen(visits, values, request.MaxBytes());
    CombinedText(values);
    CombinedText(texts);
    FitsUncut(Combined(values, TextFormat), TextFormat, request.MaxBytes());
  }

  lemma CombinedText(pages: seq<Extracted>)
    requires pages != [] && forall p | p in pages :: p.Chars?
    ensures Combined(pages, TextFormat).Chars? && ValueBytes(Combined(pages, TextFormat)) >= TotalBytes(pages)
  {
    assert pages[0] in pages;
    JoinHoldsBytes(pages);
    if |pages| == 1 { assert pages[..0] == []; }
  }

  /** After a cut the byte-limit test fires exactly when the page is large enough by its own
      account or some prefix fills what was left to the byte. On the first page a page that
      reports its text's size is always noticed. */
  lemma CutIsNoticed(maxBytes: nat, completed: nat, value: Str, raw: int)
    requires completed < maxBytes && ByteLength(value) > maxBytes - completed
    ensures var kept := ByteLength(Cut(value, RemainingBytes(maxBytes, completed)));
            && (ReachedByteLimit(maxBytes, completed, kept, raw) <==>
                  raw >= maxBytes || exists n | 0 <= n <= |value| :: ByteLength(value[..n]) == maxBytes - completed)
            && (completed == 0 && raw >= ByteLength(value) ==> ReachedByteLimit(maxBytes, completed, kept, raw))
  {
    var limit := maxBytes - completed;
    var kept := Cut(value, limit);
    assert RemainingBytes(maxBytes, completed) == limit;
    CutFillsExactlyWhen(value, limit);
    TestAfterCut(maxBytes, completed, ByteLength(kept), raw);
  }

  lemma TestAfterCut(maxBytes: nat, completed: nat, kept: nat, raw: int)
    requires completed < maxBytes
    ensures ReachedByteLimit(maxBytes, completed, kept, raw) <==> raw >= maxBytes || kept >= maxBytes - completed
  {
  }

  /** A text extraction reported complete holds every sample that was read, on every page, as
      one contiguous block, when the pages fit the limit together or are single-byte text. */
  lemma CompleteLosesNothing(request: Request, canNavigate: bool, visits: seq<Visit>, values: seq<Extracted>, links: seq<Str>,
    timedOut: bool, r: Completed, i: nat, j: nat)
    requires Honest(request, canNavigate, visits, values, links, timedOut, r) && r.status == Complete
    requires request.format == TextFormat && AllText(visits)
    requires TotalBytes(PageTexts(visits, TextFormat)) <= request.MaxBytes() || AllSingleByte(visits)
    requires i < |visits| && j < |visits[i].samples|
    ensures r.value.Chars? && Within(visits[i].samples[j].s, r.value.s)
  {
    PagesAreText(visits, values, request.MaxBytes());
    PagesWholeExactlyWhen(visits, values, request.MaxBytes());
    CombinedText(values);
    FitsUncut(Combined(values, TextFormat), TextFormat, request.MaxBytes());
    WholeTexts(visits, values);
    PageHoldsRead(visits[i].samples, j);
    if |values| > 1 { JoinHoldsPage(values, i, visits[i].samples[j].s); }
  }

  lemma {:induction false} WholeTexts(visits: seq<Visit>, values: seq<Extracted>)
    requires ValidVisits(visits) && |visits| == |values|
    ensures values == PageTexts(visits, TextFormat) <==> PagesKeptWhole(visits, values, TextFormat)
  {
    var texts := PageTexts(visits, TextFormat);
    forall i | 0 <= i < |visits| ensures texts[i] == PageText(visits[i].samples, TextFormat) { TextAt(visits, i); }
  }

  lemma {:induction false} TextAt(visits: seq<Visit>, i: nat)
    requires ValidVisits(visits) && i < |visits|
    ensures PageTexts(visits, TextFormat)[i] == PageText(visits[i].samples, TextFormat)
    decreases |visits|
  {
    if i < |visits| - 1 { TextAt(visits[..|visits| - 1], i); }
  }

  // ---------------------------------------------------------------- a cut that goes unnoticed

  const AAA: Str := [0x61, 0x61, 0x61]
  const EURO: CodeUnit := 0x20AC

  lemma EuroBytes()
    ensures ByteLength([EURO]) == 3 && ByteLength([EURO, EURO]) == 6 && ByteLength([EURO, EURO, EURO]) == 9
    ensures ByteLength(AAA) == 3 && Cut([EURO, EURO, EURO], 8) == [EURO, EURO]
  {
    var text: Str := [EURO, EURO, EURO];
    assert [EURO][1..] == [] && [EURO, EURO][1..] == [EURO] && text[1..] == [EURO, EURO];
    SingleByteLength(AAA);
    assert text[..3] == text && text[..2] == [EURO, EURO];
    assert ByteLength(text[..2]) == 6 && ByteLength(text[..3]) == 9;
    assert CutFrom(text, 8, 2) == text[..2];
  }

  const SLACK_REQUEST := Request(TextFormat, DocumentAndPagination, None, Some(2.0), Some(11.0), None, None)
  const FIRST_PROBE := Probe(0.0, 0.0, 0.0, 3, [1], Some([2]))
  const SECOND_PROBE := Probe(0.0, 0.0, 0.0, 9, [3], None)
  const SLACK_VISITS := [Visit([FIRST_PROBE], [Chars(AAA)]), Visit([SECOND_PROBE], [Chars([EURO, EURO, EURO])])]
  const SLACK_VALUES := [Chars(AAA), Chars([EURO, EURO])]
  const SLACK_RESULT := Completed(Chars(AAA + [LF, LF] + [EURO, EURO]), Complete, PaginationEnd, 2, 0, 11, false)

  /** A run whose two pages hold three letters and three euro signs under a limit of eleven
      bytes: eight are left for the second page, six are kept, and neither page's own account of
      its size nor the joined text meets the limit. The result is complete, with a sign lost. */
  lemma SlackRun()
    ensures var request := SLACK_REQUEST;
            && request.MaxBytes() == 11
            && Truncated(Chars(AAA), TextFormat, RemainingBytes(11, 0)) == SLACK_VALUES[0]
            && !ReachedByteLimit(11, 0, ValueBytes(SLACK_VALUES[0]), FIRST_PROBE.contentBytes)
            && AfterPage(request, true, FIRST_PROBE, false, 1, false).None?
            && Truncated(Chars([EURO, EURO, EURO]), TextFormat, RemainingBytes(11, 3)) == SLACK_VALUES[1]
            && !ReachedByteLimit(11, 3, ValueBytes(SLACK_VALUES[1]), SECOND_PROBE.contentBytes)
            && AfterPage(request, true, SECOND_PROBE, false, 2, false) == Some(Verdict(Complete, PaginationEnd, false))
            && ValueBytes(Combined(SLACK_VALUES, TextFormat)) == 11
    ensures Honest(SLACK_REQUEST, true, SLACK_VISITS, SLACK_VALUES, [[2]], false, SLACK_RESULT)
    ensures SLACK_RESULT.value != Combined(PageTexts(SLACK_VISITS, TextFormat), TextFormat)
  {
    SlackSteps();
    SlackIsHonest();
    SlackLosesText();
  }

  lemma SlackSteps()
    ensures SLACK_REQUEST.MaxBytes() == 11 && SLACK_REQUEST.MaxPages() == 2 && SLACK_REQUEST.MaxScrolls() == 1
    ensures Truncated(Chars(AAA), TextFormat, 11) == SLACK_VALUES[0]
    ensures Truncated(Chars([EURO, EURO, EURO]), TextFormat, 8) == SLACK_VALUES[1]
    ensures ValueBytes(SLACK_VALUES[0]) == 3 && ValueBytes(SLACK_VALUES[1]) == 6
    ensures Combined(SLACK_VALUES, TextFormat) == SLACK_RESULT.value && ValueBytes(SLACK_RESULT.value) == 11
    ensures Truncated(SLACK_RESULT.value, TextFormat, 11) == SLACK_RESULT.value
  {
    EuroBytes();
    FitsUncut(Chars(AAA), TextFormat, 11);
    BytesBetweenPages(AAA, [EURO, EURO]);
    assert SLACK_VALUES[1..] == [Chars([EURO, EURO])] && JoinPages([Chars([EURO, EURO])]) == [EURO, EURO];
    assert JoinPages(SLACK_VALUES) == AAA + [LF, LF] + [EURO, EURO];
    FitsUncut(SLACK_RESULT.value, TextFormat, 11);
  }

  lemma OneTotal(v: Extracted)
    ensures TotalBytes([v]) == ValueBytes(v)
  {
    assert [v][..0] == [];
  }

  lemma SlackIsKept()
    ensures ValidVisits(SLACK_VISITS) && KeptPages(SLACK_VISITS, SLACK_VALUES, TextFormat, 11)
    ensures TotalBytes(SLACK_VALUES) == 9 && Scrolls(SLACK_VISITS) == 0
  {
    SlackSteps();
    assert SLACK_VISITS[..1] == [SLACK_VISITS[0]] && SLACK_VALUES[..1] == [SLACK_VALUES[0]];
    assert [SLACK_VISITS[0]][..0] == [] && [SLACK_VALUES[0]][..0] == [];
    assert KeptPages([], [], TextFormat, 11);
    OneTotal(SLACK_VALUES[0]);
    assert Scrolls([SLACK_VISITS[0]]) == 0;
    assert KeptPages([SLACK_VISITS[0]], [SLACK_VALUES[0]], TextFormat, 11);
    assert KeptPage(SLACK_VISITS[1].samples, TextFormat, 8) == SLACK_VALUES[1];
  }

  lemma SlackIsHonest()
    ensures Honest(SLACK_REQUEST, true, SLACK_VISITS, SLACK_VALUES, [[2]], false, SLACK_RESULT)
  {
    SlackSteps();
    SlackIsKept();
    assert LeftThrough(SLACK_VISITS, [[2]], 0);
    assert SLACK_VISITS[1].samples[0] == Chars([EURO, EURO, EURO]) && !SingleByteValue(SLACK_VISITS[1].samples[0]);
    assert !AllSingleByte(SLACK_VISITS);
  }

  lemma SlackTexts()
    ensures ValidVisits(SLACK_VISITS)
    ensures PageTexts(SLACK_VISITS, TextFormat) == [Chars(AAA), Chars([EURO, EURO, EURO])]
    ensures TotalBytes([Chars(AAA), Chars([EURO, EURO, EURO])]) == 12
  {
    EuroBytes();
    assert SLACK_VISITS[..1] == [SLACK_VISITS[0]] && [SLACK_VISITS[0]][..0] == [];
    OneTotal(Chars(AAA));
    var texts := [Chars(AAA), Chars([EURO, EURO, EURO])];
    assert texts[..1] == [Chars(AAA)];
  }

  lemma SlackIsText()
    ensures AllText(SLACK_VISITS)
  {
  }

  lemma SlackLosesText()
    ensures SLACK_RESULT.value != Combined(PageTexts(SLACK_VISITS, TextFormat), TextFormat)
  {
    SlackIsHonest();
    SlackSteps();
    SlackTexts();
    SlackIsText();
    CompleteIsWholeExactlyWhen(SLACK_REQUEST, true, SLACK_VISITS, SLACK_VALUES, [[2]], false, SLACK_RESULT);
  }
}
