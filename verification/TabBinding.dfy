/** Which remote page an MCP tab stands for (browser-tab-binding-service.ts), and bringing all
    bindings up to date with the pages that exist (browser-tab-selection-service.ts). */
module TabBinding {
  import opened Text
  import opened Rows

  datatype Remote = Remote(pageId: Option<Str>, index: nat, current: bool, title: Str, url: Str, crashed: bool)

  /** `expiresAt` is None when the stored text is not a date. */
  datatype Navigation = Navigation(expiresAt: Option<int>, expectedUrl: Option<Str>)

  datatype Binding = Binding(
    sessionId: Str,
    remoteTabId: Str,
    remoteIndex: nat,
    url: Str,
    title: Str,
    remoteTabCount: Option<nat>,
    navigation: Option<Navigation>)

  datatype Ownership = Mcp | User

  datatype Tab = Tab(ownership: Ownership, sticky: bool, lockedUrl: Option<Str>, url: Option<Str>, title: Option<Str>, lastUsedAt: int)

  datatype Unified = Unified(tab: Tab, sessionId: Str, remoteTabId: Str, remoteIndex: nat)

  /** The shared maps, the running session with its last use, and the tabs that were given up:
      those are detached from their tasks and their references dropped, in this order. */
  datatype State = State(
    session: Str,
    lastUsedAt: int,
    tabs: map<Str, Tab>,
    bindings: map<Str, Binding>,
    unifiedTabs: map<Str, Unified>,
    discarded: seq<Str>)

  datatype Mode = Exact | TitleDrift | StickyOriginDrift | SignatureRecovery | NavigationTransition

  datatype RemoteMatch = RemoteMatch(remote: Remote, mode: Mode)

  datatype BindError = TabNotOwned | NoStablePageId

  datatype Step = Step(state: State, error: Option<BindError>)

  /** URL handling and the clock; `origin` is None for text that is not a URL. */
  datatype Env = Env(normalize: Str -> Str, origin: Str -> Option<Str>, now: int)

  // ---------------------------------------------------------------- finding the page

  predicate IsActive(s: State, b: Binding) {
    b.sessionId == s.session
  }

  function ActiveNavigation(env: Env, n: Option<Navigation>): Option<Navigation> {
    if n.Some? && n.value.expiresAt.Some? && n.value.expiresAt.value > env.now then n else None
  }

  predicate SameOrigin(env: Env, a: Str, b: Str) {
    env.origin(a).Some? && env.origin(a) == env.origin(b)
  }

  predicate StickyOrigin(env: Env, tab: Tab, bindingUrl: Str, remoteUrl: Str) {
    && tab.sticky && tab.lockedUrl.Some? && tab.lockedUrl.value != []
    && SameOrigin(env, bindingUrl, tab.lockedUrl.value) && SameOrigin(env, remoteUrl, tab.lockedUrl.value)
  }

  predicate Expected(env: Env, expectedUrl: Str, actualUrl: Str) {
    env.normalize(expectedUrl) == env.normalize(actualUrl) || SameOrigin(env, expectedUrl, actualUrl)
  }

  function AtIndex(remotes: seq<Remote>, index: nat): (r: Option<Remote>)
    ensures r.Some? ==> r.value in remotes && r.value.index == index
    ensures r.None? ==> forall x | x in remotes :: x.index != index
  {
    if remotes == [] then None
    else if remotes[0].index == index then Some(remotes[0])
    else AtIndex(remotes[1..], index)
  }

  /** Page indexes that active bindings of other tabs hold. */
  predicate Claimed(s: State, id: Str, index: nat) {
    exists other | other in s.bindings :: other != id && IsActive(s, s.bindings[other]) && s.bindings[other].remoteIndex == index
  }

  predicate HasSignature(env: Env, s: State, id: Str, b: Binding, r: Remote) {
    !r.crashed && !Claimed(s, id, r.index) && env.normalize(r.url) == b.url && r.title == b.title
  }

  function SignatureMatches(env: Env, s: State, id: Str, b: Binding, remotes: seq<Remote>): (r: seq<Remote>)
    ensures forall x :: x in r <==> x in remotes && HasSignature(env, s, id, b, x)
  {
    if remotes == [] then []
    else
      var rest := SignatureMatches(env, s, id, b, remotes[1..]);
      if HasSignature(env, s, id, b, remotes[0]) then [remotes[0]] + rest else rest
  }

  /** The page at the bound index, if it still looks like the bound page. */
  function ByIndex(env: Env, tab: Tab, b: Binding, indexed: Option<Remote>): Option<RemoteMatch> {
    if indexed.None? || indexed.value.crashed then None
    else
      var url := env.normalize(indexed.value.url);
      if url == b.url && indexed.value.title == b.title then Some(RemoteMatch(indexed.value, Exact))
      else if url == b.url then Some(RemoteMatch(indexed.value, TitleDrift))
      else if StickyOrigin(env, tab, b.url, url) then Some(RemoteMatch(indexed.value, StickyOriginDrift))
      else None
  }

  /** The current page at the bound index, while a navigation is under way. */
  function ByNavigation(env: Env, b: Binding, indexed: Option<Remote>, count: nat): Option<RemoteMatch> {
    var navigation := ActiveNavigation(env, b.navigation);
    if navigation.None? || indexed.None? || indexed.value.crashed || !indexed.value.current then None
    else if b.remoteTabCount.Some? && b.remoteTabCount.value != count then None
    else
      var expected := navigation.value.expectedUrl;
      if expected.Some? && expected.value != [] && !Expected(env, expected.value, env.normalize(indexed.value.url)) then None
      else Some(RemoteMatch(indexed.value, NavigationTransition))
  }

  predicate Registered(s: State, id: Str, b: Binding) {
    id in s.unifiedTabs && s.unifiedTabs[id].sessionId == s.session && s.unifiedTabs[id].remoteTabId == b.remoteTabId
  }

  function FindRemoteTab(env: Env, s: State, id: Str, tab: Tab, remotes: seq<Remote>): Option<RemoteMatch> {
    if id !in s.bindings || !IsActive(s, s.bindings[id]) || !Registered(s, id, s.bindings[id]) then None
    else
      var b := s.bindings[id];
      var indexed := AtIndex(remotes, b.remoteIndex);
      var direct := ByIndex(env, tab, b, indexed);
      if direct.Some? then direct
      else
        var matches := SignatureMatches(env, s, id, b, remotes);
        if |matches| == 1 then Some(RemoteMatch(matches[0], SignatureRecovery))
        else ByNavigation(env, b, indexed, |remotes|)
  }

  /** A match is a page that exists and has not crashed. It sits at the bound index, or at one
      no other tab claims. It has the bound address, or shares the origin a sticky tab is locked
      to, or is the current page of an unexpired navigation: no other page is ever taken. */
  lemma MatchIsIdentified(env: Env, s: State, id: Str, tab: Tab, remotes: seq<Remote>)
    requires FindRemoteTab(env, s, id, tab, remotes).Some?
    ensures id in s.bindings && IsActive(s, s.bindings[id])
    ensures var m := FindRemoteTab(env, s, id, tab, remotes).value;
            var b := s.bindings[id];
            && m.remote in remotes && !m.remote.crashed
            && (m.remote.index == b.remoteIndex || !Claimed(s, id, m.remote.index))
            && (|| env.normalize(m.remote.url) == b.url
                || StickyOrigin(env, tab, b.url, env.normalize(m.remote.url))
                || (m.remote.current && m.remote.index == b.remoteIndex && ActiveNavigation(env, b.navigation).Some?))
            && (m.mode == SignatureRecovery ==> m.remote.title == b.title && env.normalize(m.remote.url) == b.url)
  {
    var b := s.bindings[id];
    var matches := SignatureMatches(env, s, id, b, remotes);
    if |matches| == 1 {
      assert matches[0] in matches;
      assert HasSignature(env, s, id, b, matches[0]);
    }
  }

  // ---------------------------------------------------------------- exactly when a page is found

  ghost predicate UniqueIndexes(remotes: seq<Remote>) {
    forall i, j | 0 <= i < j < |remotes| :: remotes[i].index != remotes[j].index
  }

  /** Bound in this session, and the unified record names the same page. */
  predicate BoundHere(s: State, id: Str) {
    && id in s.bindings && s.bindings[id].sessionId == s.session
    && id in s.unifiedTabs && s.unifiedTabs[id].sessionId == s.session
    && s.unifiedTabs[id].remoteTabId == s.bindings[id].remoteTabId
  }

  predicate LockedToOrigin(env: Env, tab: Tab, b: Binding, r: Remote) {
    && tab.sticky && tab.lockedUrl != None && tab.lockedUrl != Some([])
    && env.origin(tab.lockedUrl.value) != None
    && env.origin(tab.lockedUrl.value) == env.origin(b.url) == env.origin(env.normalize(r.url))
  }

  /** The page is where it was, with its address or within the origin the tab is locked to. */
  predicate StillThere(env: Env, tab: Tab, b: Binding, r: Remote) {
    r.index == b.remoteIndex && !r.crashed && (env.normalize(r.url) == b.url || LockedToOrigin(env, tab, b, r))
  }

  /** The page has the bound address and title, and no other tab of this session is bound to its
      index. */
  predicate MovedTo(env: Env, s: State, id: Str, b: Binding, r: Remote) {
    && !r.crashed && env.normalize(r.url) == b.url && r.title == b.title
    && forall other | other in s.bindings && other != id ::
         s.bindings[other].sessionId != s.session || s.bindings[other].remoteIndex != r.index
  }

  ghost predicate OnlyMovedTo(env: Env, s: State, id: Str, b: Binding, remotes: seq<Remote>, r: Remote) {
    r in remotes && MovedTo(env, s, id, b, r) && forall x | x in remotes && MovedTo(env, s, id, b, x) :: x == r
  }

  /** The current page at the bound index, while a navigation that may lead to it has not run out
      and no page came or went. */
  predicate Navigating(env: Env, b: Binding, r: Remote, count: nat) {
    && r.index == b.remoteIndex && !r.crashed && r.current
    && b.navigation != None && b.navigation.value.expiresAt != None && env.now < b.navigation.value.expiresAt.value
    && (b.remoteTabCount == None || b.remoteTabCount == Some(count))
    && var expected := b.navigation.value.expectedUrl;
       || expected == None || expected == Some([])
       || env.normalize(expected.value) == env.normalize(env.normalize(r.url))
       || (env.origin(expected.value) != None && env.origin(expected.value) == env.origin(env.normalize(r.url)))
  }

  lemma AtUniqueIndex(remotes: seq<Remote>, r: Remote)
    requires UniqueIndexes(remotes) && r in remotes
    ensures AtIndex(remotes, r.index) == Some(r)
  {
    var k :| 0 <= k < |remotes| && remotes[k] == r;
    var found := AtIndex(remotes, r.index);
    var j :| 0 <= j < |remotes| && remotes[j] == found.value;
    assert j == k;
  }

  lemma HasSignatureMeans(env: Env, s: State, id: Str, b: Binding, r: Remote)
    ensures HasSignature(env, s, id, b, r) <==> MovedTo(env, s, id, b, r)
  {
    assert Claimed(s, id, r.index) <==> exists other | other in s.bindings && other != id ::
        s.bindings[other].sessionId == s.session && s.bindings[other].remoteIndex == r.index;
  }

  lemma {:induction false} MatchesAreApart(env: Env, s: State, id: Str, b: Binding, remotes: seq<Remote>)
    requires UniqueIndexes(remotes)
    ensures UniqueIndexes(SignatureMatches(env, s, id, b, remotes))
  {
    if remotes != [] {
      MatchesAreApart(env, s, id, b, remotes[1..]);
      var rest := SignatureMatches(env, s, id, b, remotes[1..]);
      forall k | 0 <= k < |rest| ensures rest[k].index != remotes[0].index {
        assert rest[k] in remotes[1..];
      }
    }
  }

  lemma OneMatch(env: Env, s: State, id: Str, b: Binding, remotes: seq<Remote>)
    requires UniqueIndexes(remotes)
    ensures var m := SignatureMatches(env, s, id, b, remotes);
            && (|m| == 1 ==> OnlyMovedTo(env, s, id, b, remotes, m[0]))
            && (forall r | OnlyMovedTo(env, s, id, b, remotes, r) :: m == [r])
  {
    var m := SignatureMatches(env, s, id, b, remotes);
    forall r ensures HasSignature(env, s, id, b, r) <==> MovedTo(env, s, id, b, r) { HasSignatureMeans(env, s, id, b, r); }
    MatchesAreApart(env, s, id, b, remotes);
    if |m| == 1 {
      assert m[0] in m;
      forall x | x in remotes && MovedTo(env, s, id, b, x) ensures x == m[0] { assert x in m; }
    }
    forall r | OnlyMovedTo(env, s, id, b, remotes, r) ensures m == [r] {
      assert r in m;
      assert forall k | 0 <= k < |m| :: m[k] in m && m[k] == r;
      assert |m| > 1 ==> m[0].index != m[1].index;
    }
  }

  /** What a page that is still there counts as. */
  function ModeOf(env: Env, b: Binding, r: Remote): Mode {
    if env.normalize(r.url) != b.url then StickyOriginDrift else if r.title != b.title then TitleDrift else Exact
  }

  lemma FoundByIndex(env: Env, tab: Tab, b: Binding, remotes: seq<Remote>)
    requires UniqueIndexes(remotes)
    ensures var m := ByIndex(env, tab, b, AtIndex(remotes, b.remoteIndex));
            && (m.Some? ==> m.value.remote in remotes && StillThere(env, tab, b, m.value.remote))
            && (forall r | r in remotes && StillThere(env, tab, b, r) :: m == Some(RemoteMatch(r, ModeOf(env, b, r))))
  {
    forall r | r in remotes && StillThere(env, tab, b, r)
      ensures ByIndex(env, tab, b, AtIndex(remotes, b.remoteIndex)) == Some(RemoteMatch(r, ModeOf(env, b, r)))
    {
      AtUniqueIndex(remotes, r);
    }
  }

  lemma FoundByNavigation(env: Env, b: Binding, remotes: seq<Remote>)
    requires UniqueIndexes(remotes)
    ensures var m := ByNavigation(env, b, AtIndex(remotes, b.remoteIndex), |remotes|);
            && (m.Some? ==> m.value.remote in remotes && Navigating(env, b, m.value.remote, |remotes|))
            && (forall r | r in remotes && Navigating(env, b, r, |remotes|) :: m == Some(RemoteMatch(r, NavigationTransition)))
  {
    forall r | r in remotes && Navigating(env, b, r, |remotes|)
      ensures ByNavigation(env, b, AtIndex(remotes, b.remoteIndex), |remotes|) == Some(RemoteMatch(r, NavigationTransition))
    {
      AtUniqueIndex(remotes, r);
    }
  }

  /** A page is found exactly when the tab is bound and a page is still there, or exactly one has
      moved, or one is being navigated to; and the first of these that applies is taken. */
  lemma FoundExactlyWhen(env: Env, s: State, id: Str, tab: Tab, remotes: seq<Remote>)
    requires UniqueIndexes(remotes)
    ensures FindRemoteTab(env, s, id, tab, remotes).Some? <==>
              BoundHere(s, id)
              && exists r | r in remotes :: var b := s.bindings[id];
                   StillThere(env, tab, b, r) || OnlyMovedTo(env, s, id, b, remotes, r) || Navigating(env, b, r, |remotes|)
    ensures forall r | BoundHere(s, id) && r in remotes :: FoundAs(env, s, id, tab, remotes, r)
  {
    if BoundHere(s, id) {
      var b := s.bindings[id];
      FoundByIndex(env, tab, b, remotes);
      OneMatch(env, s, id, b, remotes);
      FoundByNavigation(env, b, remotes);
      forall r | r in remotes ensures FoundAs(env, s, id, tab, remotes, r) { }
      var m := FindRemoteTab(env, s, id, tab, remotes);
      if m.Some? {
        var r := m.value.remote;
        assert StillThere(env, tab, b, r) || OnlyMovedTo(env, s, id, b, remotes, r) || Navigating(env, b, r, |remotes|);
        assert r in remotes;
      }
    }
  }

  /** In which cases this page is the one that is found, and as what. */
  ghost predicate FoundAs(env: Env, s: State, id: Str, tab: Tab, remotes: seq<Remote>, r: Remote)
    requires BoundHere(s, id)
  {
    var b, m := s.bindings[id], FindRemoteTab(env, s, id, tab, remotes);
    && (StillThere(env, tab, b, r) ==> m == Some(RemoteMatch(r, ModeOf(env, b, r))))
    && (OnlyMovedTo(env, s, id, b, remotes, r) && (forall x | x in remotes :: !StillThere(env, tab, b, x)) ==>
          m == Some(RemoteMatch(r, SignatureRecovery)))
    && (Navigating(env, b, r, |remotes|) && (forall x | x in remotes :: !StillThere(env, tab, b, x) && !OnlyMovedTo(env, s, id, b, remotes, x)) ==>
          m == Some(RemoteMatch(r, NavigationTransition)))
  }

  // ---------------------------------------------------------------- binding

  /** "direct:page:" */
  const PAGE_PREFIX: Str := [0x64, 0x69, 0x72, 0x65, 0x63, 0x74, 0x3A, 0x70, 0x61, 0x67, 0x65, 0x3A]

  function Bind(env: Env, s: State, id: Str, remote: Remote, count: Option<nat>, clearNavigation: bool): Step {
    if id in s.bindings && !IsActive(s, s.bindings[id]) then Step(s, Some(TabNotOwned))
    else if remote.pageId.None? || remote.pageId.value == [] then Step(s, Some(NoStablePageId))
    else
      var previous := if id in s.bindings then Some(s.bindings[id]) else None;
      var navigation := if clearNavigation || previous.None? then None else ActiveNavigation(env, previous.value.navigation);
      var tabCount := if count.Some? then count else if previous.Some? then previous.value.remoteTabCount else None;
      var remoteTabId := PAGE_PREFIX + remote.pageId.value;
      var url := env.normalize(remote.url);
      var b := Binding(s.session, remoteTabId, remote.index, url, remote.title, tabCount, navigation);
      var bound := s.(bindings := s.bindings[id := b]);
      if id !in s.tabs || s.tabs[id].ownership.User? then Step(bound, Some(TabNotOwned))
      else
        var tab := s.tabs[id].(url := Some(url), title := Some(remote.title), lastUsedAt := env.now);
        Step(bound.(tabs := s.tabs[id := tab], lastUsedAt := env.now,
                    unifiedTabs := s.unifiedTabs[id := Unified(tab, s.session, remoteTabId, remote.index)]), None)
  }

  function Discard(s: State, id: Str): State {
    s.(tabs := s.tabs - {id}, bindings := s.bindings - {id}, unifiedTabs := s.unifiedTabs - {id}, discarded := s.discarded + [id])
  }

  /** Active bindings of different tabs hold different pages. */
  ghost predicate DistinctPages(s: State) {
    forall a, b | a in s.bindings && b in s.bindings && a != b && IsActive(s, s.bindings[a]) && IsActive(s, s.bindings[b]) ::
      s.bindings[a].remoteIndex != s.bindings[b].remoteIndex
  }

  // ---------------------------------------------------------------- reconciling all tabs

  function ReconcileOne(env: Env, s: State, row: Row<Tab>, remotes: seq<Remote>, prune: bool): Step {
    var m := FindRemoteTab(env, s, row.id, row.v, remotes);
    if m.Some? then Bind(env, s, row.id, m.value.remote, Some(|remotes|), m.value.mode == NavigationTransition)
    else if prune then Step(Discard(s, row.id), None)
    else Step(s, None)
  }

  /** One tab after another; an error ends it. */
  function Reconcile(env: Env, s: State, rows: seq<Row<Tab>>, remotes: seq<Remote>, prune: bool): Step {
    if rows == [] then Step(s, None)
    else
      var before := Reconcile(env, s, Front(rows), remotes, prune);
      if before.error.Some? then before else ReconcileOne(env, before.state, Last(rows), remotes, prune)
  }

  /** Where a tab that is found ends up: on that page, with the number of pages there are; an
      unexpired navigation goes on unless the page was found as its outcome. */
  lemma ReboundTo(env: Env, s: State, row: Row<Tab>, remotes: seq<Remote>, prune: bool)
    requires FindRemoteTab(env, s, row.id, row.v, remotes).Some? && ReconcileOne(env, s, row, remotes, prune).error.None?
    ensures var m, t := FindRemoteTab(env, s, row.id, row.v, remotes).value, ReconcileOne(env, s, row, remotes, prune).state;
            && row.id in s.bindings && row.id in t.bindings && row.id in t.tabs
            && var b, n := t.bindings[row.id], s.bindings[row.id].navigation;
               && m.remote.pageId != None && b.remoteTabId == PAGE_PREFIX + m.remote.pageId.value
               && (b.sessionId, b.remoteIndex, b.url, b.title) == (s.session, m.remote.index, env.normalize(m.remote.url), m.remote.title)
               && b.remoteTabCount == Some(|remotes|)
               && b.navigation ==
                    (if m.mode != NavigationTransition && n != None && n.value.expiresAt != None && n.value.expiresAt.value > env.now then n else None)
               && t.tabs[row.id] == s.tabs[row.id].(url := Some(b.url), title := Some(b.title), lastUsedAt := env.now)
               && t.lastUsedAt == env.now && t.discarded == s.discarded
    ensures forall id | id != row.id ::
      var t := ReconcileOne(env, s, row, remotes, prune).state;
      (id in t.bindings <==> id in s.bindings) && (id in s.bindings ==> t.bindings[id] == s.bindings[id])
  {
  }

  /** Pruning gives no tab up whose page only moved to another index. */
  lemma MovedTabIsKept(env: Env, s: State, row: Row<Tab>, remotes: seq<Remote>, r: Remote, prune: bool)
    requires UniqueIndexes(remotes) && BoundHere(s, row.id) && OnlyMovedTo(env, s, row.id, s.bindings[row.id], remotes, r)
    ensures var t := ReconcileOne(env, s, row, remotes, prune).state;
            && t.discarded == s.discarded && (row.id in s.tabs ==> row.id in t.tabs)
            && ((forall x | x in remotes :: !StillThere(env, row.v, s.bindings[row.id], x)) && r.pageId != None && r.pageId != Some([]) ==>
                  row.id in t.bindings && t.bindings[row.id].remoteIndex == r.index)
  {
    FoundExactlyWhen(env, s, row.id, row.v, remotes);
    assert FoundAs(env, s, row.id, row.v, remotes, r);
  }

  lemma OneKeepsDistinct(env: Env, s: State, row: Row<Tab>, remotes: seq<Remote>, prune: bool)
    requires DistinctPages(s)
    ensures DistinctPages(ReconcileOne(env, s, row, remotes, prune).state)
    ensures ReconcileOne(env, s, row, remotes, prune).state.session == s.session
  {
    if FindRemoteTab(env, s, row.id, row.v, remotes).Some? {
      MatchIsIdentified(env, s, row.id, row.v, remotes);
    }
  }

  /** Distinct pages stay distinct, for any new list of pages, with and without pruning, and
      even when a binding fails half way. */
  lemma {:induction false} ReconcileKeepsDistinct(env: Env, s: State, rows: seq<Row<Tab>>, remotes: seq<Remote>, prune: bool)
    requires DistinctPages(s)
    ensures DistinctPages(Reconcile(env, s, rows, remotes, prune).state)
  {
    if rows != [] {
      ReconcileKeepsDistinct(env, s, Front(rows), remotes, prune);
      var before := Reconcile(env, s, Front(rows), remotes, prune);
      if before.error.None? { OneKeepsDistinct(env, before.state, Last(rows), remotes, prune); }
    }
  }

  predicate ShowsPage(env: Env, b: Binding, r: Remote) {
    && r.index == b.remoteIndex && !r.crashed && b.url == env.normalize(r.url) && b.title == r.title
    && r.pageId.Some? && b.remoteTabId == PAGE_PREFIX + r.pageId.value
  }

  /** The tab is bound to a page that exists, and its unified record says the same. */
  ghost predicate Live(env: Env, s: State, id: Str, remotes: seq<Remote>) {
    && id in s.tabs && id in s.bindings && id in s.unifiedTabs
    && IsActive(s, s.bindings[id])
    && (exists r | r in remotes :: ShowsPage(env, s.bindings[id], r))
    && var b := s.bindings[id];
       s.unifiedTabs[id] == Unified(s.tabs[id], s.session, b.remoteTabId, b.remoteIndex)
  }

  lemma OneIsLiveOrGone(env: Env, s: State, row: Row<Tab>, remotes: seq<Remote>)
    requires ReconcileOne(env, s, row, remotes, true).error.None?
    ensures var t := ReconcileOne(env, s, row, remotes, true).state;
            && t.tabs.Keys <= s.tabs.Keys && t.session == s.session
            && (row.id in t.tabs ==> Live(env, t, row.id, remotes))
            && (row.id in t.tabs <==> FindRemoteTab(env, s, row.id, row.v, remotes).Some?)
            && (forall id | id != row.id && Live(env, s, id, remotes) :: Live(env, t, id, remotes))
            && (forall id | id != row.id :: id in t.tabs <==> id in s.tabs)
  {
    var m := FindRemoteTab(env, s, row.id, row.v, remotes);
    var t := ReconcileOne(env, s, row, remotes, true).state;
    if m.Some? {
      MatchIsIdentified(env, s, row.id, row.v, remotes);
      assert ShowsPage(env, t.bindings[row.id], m.value.remote);
    }
    forall id | id != row.id && Live(env, s, id, remotes) ensures Live(env, t, id, remotes) {
      assert t.bindings[id] == s.bindings[id];
    }
  }

  lemma {:induction false} PrunedSoFar(env: Env, s: State, rows: seq<Row<Tab>>, remotes: seq<Remote>)
    requires Unique(rows) && Reconcile(env, s, rows, remotes, true).error.None?
    ensures var t := Reconcile(env, s, rows, remotes, true).state;
            && t.tabs.Keys <= s.tabs.Keys && t.session == s.session
            && forall id | id in Ids(rows) && id in t.tabs :: Live(env, t, id, remotes)
  {
    if rows != [] {
      FrontLast(rows);
      PrunedSoFar(env, s, Front(rows), remotes);
      OneIsLiveOrGone(env, Reconcile(env, s, Front(rows), remotes, true).state, Last(rows), remotes);
    }
  }

  /** With pruning, every tab that is left is bound to a page of its own that exists and has
      not crashed, and all three records agree. */
  lemma PrunedAreLive(env: Env, s: State, rows: seq<Row<Tab>>, remotes: seq<Remote>)
    requires DistinctPages(s) && Unique(rows) && s.tabs.Keys <= Ids(rows)
    requires Reconcile(env, s, rows, remotes, true).error.None?
    ensures var t := Reconcile(env, s, rows, remotes, true).state;
            && (forall id | id in t.tabs :: Live(env, t, id, remotes))
            && (forall a, b | a in t.tabs && b in t.tabs && a != b :: t.bindings[a].remoteIndex != t.bindings[b].remoteIndex)
  {
    PrunedSoFar(env, s, rows, remotes);
    ReconcileKeepsDistinct(env, s, rows, remotes, true);
    var t := Reconcile(env, s, rows, remotes, true).state;
    forall id | id in t.tabs ensures Live(env, t, id, remotes) {
      assert id in Ids(rows);
    }
  }

  // ---------------------------------------------------------------- reconciling twice

  ghost predicate DistinctIndexes(remotes: seq<Remote>) {
    forall r, t | r in remotes && t in remotes && r.index == t.index :: r == t
  }

  /** All that binding `id` to the page leaves behind. */
  predicate BoundTo(env: Env, s: State, id: Str, r: Remote, count: nat) {
    && id in s.tabs && id in s.bindings && id in s.unifiedTabs
    && !r.crashed && r.pageId.Some? && r.pageId.value != []
    && var b := s.bindings[id];
       && b == Binding(s.session, PAGE_PREFIX + r.pageId.value, r.index, env.normalize(r.url), r.title, Some(count), b.navigation)
       && b.navigation == ActiveNavigation(env, b.navigation)
       && s.tabs[id].ownership.Mcp? && s.tabs[id].url == Some(b.url) && s.tabs[id].title == Some(b.title)
       && s.tabs[id].lastUsedAt == env.now == s.lastUsedAt
       && s.unifiedTabs[id] == Unified(s.tabs[id], s.session, b.remoteTabId, b.remoteIndex)
  }

  ghost predicate Settled(env: Env, s: State, id: Str, remotes: seq<Remote>) {
    exists r | r in remotes :: BoundTo(env, s, id, r, |remotes|)
  }

  lemma OneSettlesOrGoes(env: Env, s: State, row: Row<Tab>, remotes: seq<Remote>)
    requires ReconcileOne(env, s, row, remotes, true).error.None?
    ensures var t := ReconcileOne(env, s, row, remotes, true).state;
            && (row.id in t.tabs ==> Settled(env, t, row.id, remotes))
            && (forall id | id != row.id && Settled(env, s, id, remotes) :: Settled(env, t, id, remotes))
            && (forall id | id != row.id :: id in t.tabs <==> id in s.tabs)
  {
    var m := FindRemoteTab(env, s, row.id, row.v, remotes);
    var t := ReconcileOne(env, s, row, remotes, true).state;
    if m.Some? {
      MatchIsIdentified(env, s, row.id, row.v, remotes);
      assert BoundTo(env, t, row.id, m.value.remote, |remotes|);
    }
    forall id | id != row.id && Settled(env, s, id, remotes) ensures Settled(env, t, id, remotes) {
      var r :| r in remotes && BoundTo(env, s, id, r, |remotes|);
      assert BoundTo(env, t, id, r, |remotes|);
    }
  }

  lemma {:induction false} SettledSoFar(env: Env, s: State, rows: seq<Row<Tab>>, remotes: seq<Remote>)
    requires Unique(rows) && Reconcile(env, s, rows, remotes, true).error.None?
    ensures var t := Reconcile(env, s, rows, remotes, true).state;
            && (forall id | id in Ids(rows) && id in t.tabs :: Settled(env, t, id, remotes))
            && t.tabs.Keys <= s.tabs.Keys
  {
    if rows != [] {
      FrontLast(rows);
      SettledSoFar(env, s, Front(rows), remotes);
      OneSettlesOrGoes(env, Reconcile(env, s, Front(rows), remotes, true).state, Last(rows), remotes);
    }
  }

  /** A settled tab is found again as it is, on the same page, and binding it changes nothing. */
  lemma SettledStays(env: Env, s: State, row: Row<Tab>, remotes: seq<Remote>, prune: bool)
    requires DistinctIndexes(remotes) && Settled(env, s, row.id, remotes) && row.v == s.tabs[row.id]
    ensures FindRemoteTab(env, s, row.id, row.v, remotes).Some? && FindRemoteTab(env, s, row.id, row.v, remotes).value.mode == Exact
    ensures ReconcileOne(env, s, row, remotes, prune) == Step(s, None)
  {
    var r :| r in remotes && BoundTo(env, s, row.id, r, |remotes|);
    assert AtIndex(remotes, r.index) == Some(r);
    var b := Bind(env, s, row.id, r, Some(|remotes|), false);
    assert b.state.tabs == s.tabs && b.state.bindings == s.bindings && b.state.unifiedTabs == s.unifiedTabs;
  }

  lemma {:induction false} SettledReconcile(env: Env, s: State, rows: seq<Row<Tab>>, remotes: seq<Remote>, prune: bool)
    requires DistinctIndexes(remotes) && forall r | r in rows :: Settled(env, s, r.id, remotes) && r.v == s.tabs[r.id]
    ensures Reconcile(env, s, rows, remotes, prune) == Step(s, None)
  {
    if rows != [] {
      FrontLast(rows);
      SettledReconcile(env, s, Front(rows), remotes, prune);
      SettledStays(env, s, Last(rows), remotes, prune);
    }
  }

  /** Reconciling is stable: done again for the same pages, it finds every tab that is left on
      the page it was given, as an exact match, and changes nothing, whatever drift, recovery or
      navigation the first pass had to follow. */
  lemma ReconcileTwice(env: Env, s: State, rows: seq<Row<Tab>>, remotes: seq<Remote>, again: seq<Row<Tab>>, prune: bool)
    requires Unique(rows) && s.tabs.Keys <= Ids(rows) && DistinctIndexes(remotes)
    requires Reconcile(env, s, rows, remotes, true).error.None?
    requires var t := Reconcile(env, s, rows, remotes, true).state;
             forall r | r in again :: r.id in t.tabs && r.v == t.tabs[r.id]
    ensures var t := Reconcile(env, s, rows, remotes, true).state;
            && Reconcile(env, t, again, remotes, prune) == Step(t, None)
            && forall r | r in again ::
                 var m := FindRemoteTab(env, t, r.id, r.v, remotes);
                 m.Some? && m.value.mode == Exact
  {
    var t := Reconcile(env, s, rows, remotes, true).state;
    SettledSoFar(env, s, rows, remotes);
    forall r | r in again ensures Settled(env, t, r.id, remotes) {
      assert r.id in Ids(rows);
    }
    SettledReconcile(env, t, again, remotes, prune);
    forall r | r in again ensures FindRemoteTab(env, t, r.id, r.v, remotes).Some?
      && FindRemoteTab(env, t, r.id, r.v, remotes).value.mode == Exact
    {
      SettledStays(env, t, r, remotes, prune);
    }
  }

  ghost predicate AllOwned(s: State) {
    forall id | id in s.tabs :: s.tabs[id].ownership.Mcp?
  }

  /** It ends early only for a page without a stable id or a tab the user owns. */
  lemma {:induction false} ReconcileCompletes(env: Env, s: State, rows: seq<Row<Tab>>, remotes: seq<Remote>, prune: bool)
    requires Unique(rows) && AllOwned(s) && forall r | r in rows :: r.id in s.tabs
    requires forall r | r in remotes :: r.pageId.Some? && r.pageId.value != []
    ensures var t := Reconcile(env, s, rows, remotes, prune);
            && t.error.None? && AllOwned(t.state) && forall id | id in s.tabs && id !in Ids(rows) :: id in t.state.tabs
  {
    if rows != [] {
      FrontLast(rows);
      ReconcileCompletes(env, s, Front(rows), remotes, prune);
      var before := Reconcile(env, s, Front(rows), remotes, prune).state;
      if FindRemoteTab(env, before, Last(rows).id, Last(rows).v, remotes).Some? {
        MatchIsIdentified(env, before, Last(rows).id, Last(rows).v, remotes);
      }
    }
  }

  // ---------------------------------------------------------------- the services

  /** The shared maps with the two services that work on them. */
  class Bindings {
    const env: Env
    const session: Str
    var lastUsedAt: int
    var discarded: seq<Str>
    /** The tab registry: its map and the order tabs were registered in. */
    var order: seq<Str>
    var tabs: map<Str, Tab>
    var bindings: map<Str, Binding>
    var unifiedTabs: map<Str, Unified>

    ghost function View(): State
      reads this
    {
      State(session, lastUsedAt, tabs, bindings, unifiedTabs, discarded)
    }

    constructor (env: Env, s: State, order: seq<Str>)
      ensures View() == s && this.env == env && this.order == order
    {
      this.env, session, lastUsedAt, discarded := env, s.session, s.lastUsedAt, s.discarded;
      tabs, bindings, unifiedTabs, this.order := s.tabs, s.bindings, s.unifiedTabs, order;
    }

    method BindTab(id: Str, remote: Remote, count: Option<nat>, clearNavigation: bool) returns (error: Option<BindError>)
      modifies `tabs, `bindings, `unifiedTabs, `lastUsedAt, `discarded
      ensures Step(View(), error) == Bind(env, old(View()), id, remote, count, clearNavigation)
    {
      var previous: Option<Binding> := None;
      if id in bindings {
        if bindings[id].sessionId != session { return Some(TabNotOwned); }
        previous := Some(bindings[id]);
      }
      var navigation: Option<Navigation> := None;
      if !clearNavigation && previous.Some? { navigation := ActiveNavigation(env, previous.value.navigation); }
      var tabCount := count;
      if count.None? && previous.Some? { tabCount := previous.value.remoteTabCount; }
      if remote.pageId.None? || remote.pageId.value == [] { return Some(NoStablePageId); }
      var remoteTabId := PAGE_PREFIX + remote.pageId.value;
      var url := env.normalize(remote.url);
      bindings := bindings[id := Binding(session, remoteTabId, remote.index, url, remote.title, tabCount, navigation)];
      if id !in tabs || tabs[id].ownership.User? { return Some(TabNotOwned); }
      tabs := tabs[id := tabs[id].(url := Some(url), title := Some(remote.title), lastUsedAt := env.now)];
      unifiedTabs := unifiedTabs[id := Unified(tabs[id], session, remoteTabId, remote.index)];
      lastUsedAt := env.now;
      error := None;
    }

    method DiscardTab(id: Str)
      modifies `tabs, `bindings, `unifiedTabs, `lastUsedAt, `discarded
      ensures View() == Discard(old(View()), id)
    {
      tabs := tabs - {id};
      bindings := bindings - {id};
      unifiedTabs := unifiedTabs - {id};
      discarded := discarded + [id];
    }

    /** A copy of the registered tabs, in order. */
    method ListTabs() returns (rows: seq<Row<Tab>>)
      requires forall id | id in order :: id in tabs
      ensures |rows| == |order| && forall i | 0 <= i < |order| :: rows[i] == Row(order[i], tabs[order[i]])
    {
      rows := [];
      var i := 0;
      while i < |order|
        invariant 0 <= i == |rows| <= |order|
        invariant forall j | 0 <= j < i :: rows[j] == Row(order[j], tabs[order[j]])
      {
        rows := rows + [Row(order[i], tabs[order[i]])];
        i := i + 1;
      }
    }

    method ReconcileBindings(pruneOrphans: bool, remotes: seq<Remote>) returns (error: Option<BindError>, ghost rows: seq<Row<Tab>>)
      requires forall id | id in order :: id in tabs
      modifies `tabs, `bindings, `unifiedTabs, `lastUsedAt, `discarded
      ensures |rows| == |order| && forall i | 0 <= i < |order| :: rows[i] == Row(order[i], old(tabs)[order[i]])
      ensures Step(View(), error) == Reconcile(env, old(View()), rows, remotes, pruneOrphans)
    {
      var list := ListTabs();
      rows := list;
      error := None;
      var i := 0;
      while i < |list|
        invariant 0 <= i <= |list|
        invariant error.None?
        invariant Step(View(), None) == Reconcile(env, old(View()), list[..i], remotes, pruneOrphans)
      {
        assert Front(list[..i + 1]) == list[..i] && Last(list[..i + 1]) == list[i];
        var found := FindRemoteTab(env, State(session, lastUsedAt, tabs, bindings, unifiedTabs, discarded), list[i].id, list[i].v, remotes);
        if found.Some? {
          error := BindTab(list[i].id, found.value.remote, Some(|remotes|), found.value.mode == NavigationTransition);
          if error.Some? {
            AfterError(env, old(View()), list, i + 1, remotes, pruneOrphans);
            return;
          }
        } else if pruneOrphans {
          DiscardTab(list[i].id);
        }
        i := i + 1;
      }
      assert list[..i] == list;
    }
  }

  lemma {:induction false} AfterError(env: Env, s: State, rows: seq<Row<Tab>>, n: nat, remotes: seq<Remote>, prune: bool)
    requires n <= |rows| && Reconcile(env, s, rows[..n], remotes, prune).error.Some?
    ensures Reconcile(env, s, rows, remotes, prune) == Reconcile(env, s, rows[..n], remotes, prune)
    decreases |rows|
  {
    if n == |rows| {
      assert rows[..n] == rows;
    } else {
      assert Front(rows)[..n] == rows[..n];
      AfterError(env, s, Front(rows), n, remotes, prune);
    }
  }
}
