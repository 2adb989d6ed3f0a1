// One search over a history and the chat it was migrated from (MessagesSearchMerged), on a
// fresh object.  A page answers a request that is in flight; a request may fail instead.
module SearchMerged {
  import opened Wrappers

  type MessageId = int

  datatype FoundMessages = FoundMessages(total: int, messages: seq<MessageId>, nextToken: string, full: bool)

  const NOTHING := FoundMessages(-1, [], "", false)

  // What the server sends; no next message means that there is no further page.
  datatype Page = Page(total: int, messages: seq<MessageId>, nextFromMessageId: int) {
    predicate Last() {
      nextFromMessageId == 0
    }
  }

  // A MessagesSearch, which each merged search holds by value.
  datatype Pager = Pager(token: string, pending: bool, offsetId: int, full: bool) {

    function SearchMessages(query: string): Pager {
      Pager(query, true, 0, false)
    }

    function SearchMore(): Pager {
      if pending || full then this else this.(pending := true)
    }

    function Received(page: Page): Pager {
      this.(pending := false, offsetId := page.nextFromMessageId, full := page.Last())
    }

    function Found(page: Page): FoundMessages {
      FoundMessages(page.total, page.messages, token, page.Last())
    }

    function Failed(): Pager {
      this.(pending := false)
    }
  }

  datatype Fired = NewFounds | NextFounds

  datatype State = State(
    apiSearch: Pager, migratedSearch: Option<Pager>,
    concated: FoundMessages, migratedFirst: FoundMessages,
    waitingForTotal: bool, isFull: bool, fired: seq<Fired>)
  {
    function AddFound(data: FoundMessages): State {
      this.(concated := concated.(messages := concated.messages + data.messages))
    }

    function CheckWaitingForTotal(): State {
      if !waitingForTotal then this.(fired := fired + [NewFounds])
      else if concated.total >= 0 && migratedFirst.total >= 0 then
        this.(waitingForTotal := false,
              concated := concated.(total := concated.total + migratedFirst.total),
              fired := fired + [NewFounds])
      else this
    }

    function CheckFull(data: FoundMessages): State {
      if data.total == |concated.messages| || data.full then this.(isFull := true).AddFound(migratedFirst)
      else this
    }

    function OnHistory(data: FoundMessages): State {
      if data.nextToken == concated.nextToken then
        var s := AddFound(data).CheckFull(data);
        s.(fired := s.fired + [NextFounds])
      else this.(concated := data).CheckFull(data).CheckWaitingForTotal()
    }

    function OnMigrated(data: FoundMessages): State {
      var s := if isFull then AddFound(data) else this;
      if data.nextToken == migratedFirst.nextToken then s.(fired := s.fired + [NextFounds])
      else s.(migratedFirst := data).CheckWaitingForTotal()
    }
  }

  function Fresh(migrated: bool): State {
    var pager := Pager("", false, 0, false);
    State(pager, if migrated then Some(pager) else None, NOTHING, NOTHING, false, false, [])
  }

  function Searched(s: State, token: string): State {
    s.(migratedSearch := if s.migratedSearch.Some? then Some(s.migratedSearch.value.SearchMessages(token)) else None,
       waitingForTotal := s.waitingForTotal || s.migratedSearch.Some?,
       apiSearch := s.apiSearch.SearchMessages(token))
  }

  // A refused query (SEARCH_QUERY_EMPTY) is announced as a page without messages.
  const REFUSED := Page(0, [], -1)

  datatype Event =
    | SearchMore
    | HistoryPage(page: Page) | MigratedPage(page: Page)
    | HistoryFailed(refused: bool) | MigratedFailed(refused: bool)
  {
    // The page that this event announces, if any.
    function HistoryPageOf(): seq<Page> {
      if HistoryPage? then [page] else if HistoryFailed? && refused then [REFUSED] else []
    }

    function MigratedPageOf(): seq<Page> {
      if MigratedPage? then [page] else if MigratedFailed? && refused then [REFUSED] else []
    }
  }

  predicate Enabled(s: State, e: Event) {
    match e
    case SearchMore => true
    case HistoryPage(_) => s.apiSearch.pending
    case HistoryFailed(_) => s.apiSearch.pending
    case MigratedPage(_) => s.migratedSearch.Some? && s.migratedSearch.value.pending
    case MigratedFailed(_) => s.migratedSearch.Some? && s.migratedSearch.value.pending
  }

  function Step(s: State, e: Event): State
    requires Enabled(s, e)
  {
    match e
    case SearchMore =>
      if s.migratedSearch.Some? && s.isFull then
        s.(migratedSearch := Some(s.migratedSearch.value.SearchMore()))
      else s.(apiSearch := s.apiSearch.SearchMore())
    case HistoryPage(page) =>
      s.(apiSearch := s.apiSearch.Received(page)).OnHistory(s.apiSearch.Found(page))
    case MigratedPage(page) =>
      s.(migratedSearch := Some(s.migratedSearch.value.Received(page))).OnMigrated(s.migratedSearch.value.Found(page))
    case HistoryFailed(refused) =>
      var t := s.(apiSearch := s.apiSearch.Failed());
      if refused then t.OnHistory(s.apiSearch.Found(REFUSED)) else t
    case MigratedFailed(refused) =>
      var t := s.(migratedSearch := Some(s.migratedSearch.value.Failed()));
      if refused then t.OnMigrated(s.migratedSearch.value.Found(REFUSED)) else t
  }

  // ----- runs -----

  // A state with the pages received so far from each side.
  datatype Progress = Progress(s: State, history: seq<Page>, migrated: seq<Page>)

  function Run(migrated: bool, token: string, events: seq<Event>): Progress
    decreases |events|
  {
    if events == [] then Progress(Searched(Fresh(migrated), token), [], [])
    else
      var n := |events| - 1;
      var p, e := Run(migrated, token, events[..n]), events[n];
      if !Enabled(p.s, e) then p
      else Progress(Step(p.s, e), p.history + e.HistoryPageOf(), p.migrated + e.MigratedPageOf())
  }

  function Messages(pages: seq<Page>): seq<MessageId> {
    if pages == [] then [] else Messages(pages[..|pages| - 1]) + pages[|pages| - 1].messages
  }

  // The history is complete when a page is the last one or all announced messages are there.
  predicate Complete(pages: seq<Page>) {
    pages != [] &&
    var n := |pages| - 1;
    Complete(pages[..n]) || pages[n].Last() || pages[n].total == |Messages(pages)|
  }

  // Both first pages are there, with totals.
  predicate TotalKnown(history: seq<Page>, migrated: seq<Page>) {
    history != [] && migrated != [] && history[0].total >= 0 && migrated[0].total >= 0
  }

  function ReportedTotal(history: seq<Page>, migrated: seq<Page>): int {
    if history == [] then -1
    else history[0].total + if TotalKnown(history, migrated) then migrated[0].total else 0
  }

  // What is shown, as a function of the pages received alone.
  ghost predicate Joined(p: Progress, token: string) {
    && p.s.isFull == Complete(p.history)
    && p.s.concated.messages ==
       Messages(p.history) + (if Complete(p.history) then Messages(p.migrated) else [])
    && p.s.concated.total == ReportedTotal(p.history, p.migrated)
    && p.s.concated.nextToken == (if p.history == [] then "" else token)
  }

  ghost predicate FirstPageKept(p: Progress, token: string) {
    if p.migrated == [] then p.s.migratedFirst == NOTHING
    else && p.s.migratedFirst.messages == p.migrated[0].messages
         && p.s.migratedFirst.total == p.migrated[0].total
         && p.s.migratedFirst.nextToken == token
  }

  // No page of the migrated chat but the first is asked for before the history is complete,
  // and no page of the history after that.
  ghost predicate TurnsTaken(p: Progress, token: string) {
    && p.s.apiSearch.token == token
    && match p.s.migratedSearch
       case None => p.migrated == [] && !p.s.waitingForTotal
       case Some(pager) =>
         && pager.token == token
         && (!p.s.isFull ==> |p.migrated| <= 1 && (pager.pending ==> p.migrated == []))
         && (p.s.isFull ==> !p.s.apiSearch.pending)
         && p.s.waitingForTotal == !TotalKnown(p.history, p.migrated)
  }

  function Count(fired: seq<Fired>, what: Fired): nat {
    if fired == [] then 0
    else Count(fired[..|fired| - 1], what) + if fired[|fired| - 1] == what then 1 else 0
  }

  function Later(pages: seq<Page>): nat {
    if pages == [] then 0 else |pages| - 1
  }

  ghost predicate Notified(p: Progress) {
    && Count(p.s.fired, NewFounds) ==
       (if p.s.migratedSearch.None? then (if p.history == [] then 0 else 1)
        else if TotalKnown(p.history, p.migrated) then 1 else 0)
    && Count(p.s.fired, NextFounds) == Later(p.history) + Later(p.migrated)
  }

  ghost predicate Invariant(p: Progress, token: string) {
    Joined(p, token) && FirstPageKept(p, token) && TurnsTaken(p, token) && Notified(p)
  }

  lemma OneMorePage(pages: seq<Page>, page: Page)
    ensures Messages(pages + [page]) == Messages(pages) + page.messages
    ensures Complete(pages + [page]) <==> Complete(pages) || page.Last() || page.total == |Messages(pages + [page])|
  {
    assert (pages + [page])[..|pages|] == pages;
  }

  lemma OneMoreFired(fired: seq<Fired>, f: Fired, what: Fired)
    ensures Count(fired + [f], what) == Count(fired, what) + if f == what then 1 else 0
  {
    assert (fired + [f])[..|fired|] == fired;
  }

  lemma NoPages()
    ensures Messages([]) == [] && !Complete([])
  {
  }

  lemma OnePage(pages: seq<Page>)
    requires |pages| == 1
    ensures Messages(pages) == pages[0].messages
  {
    assert pages[..0] == [];
  }

  lemma TwoMoreFired(fired: seq<Fired>)
    ensures Count(fired + [NewFounds], NewFounds) == Count(fired, NewFounds) + 1
    ensures Count(fired + [NewFounds], NextFounds) == Count(fired, NextFounds)
    ensures Count(fired + [NextFounds], NewFounds) == Count(fired, NewFounds)
    ensures Count(fired + [NextFounds], NextFounds) == Count(fired, NextFounds) + 1
  {
    OneMoreFired(fired, NewFounds, NewFounds);
    OneMoreFired(fired, NewFounds, NextFounds);
    OneMoreFired(fired, NextFounds, NewFounds);
    OneMoreFired(fired, NextFounds, NextFounds);
  }

  // A search that has just been answered, either way.
  predicate Answered(was: Pager, pager: Pager) {
    was.pending && !pager.pending && pager.token == was.token
  }

  lemma FirstHistoryPageKeeps(p: Progress, token: string, page: Page, pager: Pager)
    requires token != "" && Invariant(p, token) && Answered(p.s.apiSearch, pager) && p.history == []
    ensures Invariant(Progress(p.s.(apiSearch := pager).OnHistory(p.s.apiSearch.Found(page)), [page], p.migrated), token)
  {
    hide Messages, Complete, Count;
    OneMorePage([], page);
    NoPages();
    assert [] + [page] == [page];
    TwoMoreFired(p.s.fired);
    if |p.migrated| == 1 {
      OnePage(p.migrated);
    }
  }

  lemma LaterHistoryPageKeeps(p: Progress, token: string, page: Page, pager: Pager)
    requires token != "" && Invariant(p, token) && Answered(p.s.apiSearch, pager) && p.history != []
    ensures Invariant(Progress(p.s.(apiSearch := pager).OnHistory(p.s.apiSearch.Found(page)),
                               p.history + [page], p.migrated), token)
  {
    hide Messages, Complete, Count;
    OneMorePage(p.history, page);
    NoPages();
    TwoMoreFired(p.s.fired);
    if |p.migrated| == 1 {
      OnePage(p.migrated);
    }
  }

  lemma HistoryPageKeeps(p: Progress, token: string, page: Page, pager: Pager)
    requires token != "" && Invariant(p, token) && Answered(p.s.apiSearch, pager)
    ensures Invariant(Progress(p.s.(apiSearch := pager).OnHistory(p.s.apiSearch.Found(page)),
                               p.history + [page], p.migrated), token)
  {
    hide Invariant, State.OnHistory;
    if p.history == [] {
      assert p.history + [page] == [page];
      FirstHistoryPageKeeps(p, token, page, pager);
    } else {
      LaterHistoryPageKeeps(p, token, page, pager);
    }
  }

  lemma MigratedPageKeeps(p: Progress, token: string, page: Page, pager: Pager)
    requires token != "" && Invariant(p, token)
    requires p.s.migratedSearch.Some? && Answered(p.s.migratedSearch.value, pager)
    ensures Invariant(Progress(p.s.(migratedSearch := Some(pager)).OnMigrated(p.s.migratedSearch.value.Found(page)),
                               p.history, p.migrated + [page]), token)
  {
    hide Messages, Complete, Count;
    OneMorePage(p.migrated, page);
    NoPages();
    TwoMoreFired(p.s.fired);
  }

  lemma OtherStepKeeps(p: Progress, token: string, e: Event)
    requires Invariant(p, token) && Enabled(p.s, e) && e.HistoryPageOf() == [] == e.MigratedPageOf()
    ensures Invariant(p.(s := Step(p.s, e)), token)
  {
  }

  lemma HistoryStepKeeps(p: Progress, token: string, e: Event)
    requires token != "" && Invariant(p, token) && Enabled(p.s, e) && e.HistoryPageOf() != []
    ensures Invariant(Progress(Step(p.s, e), p.history + e.HistoryPageOf(), p.migrated), token)
  {
    hide Invariant, State.OnHistory;
    var was := p.s.apiSearch;
    HistoryPageKeeps(p, token, e.HistoryPageOf()[0], if e.HistoryPage? then was.Received(e.page) else was.Failed());
  }

  lemma MigratedStepKeeps(p: Progress, token: string, e: Event)
    requires token != "" && Invariant(p, token) && Enabled(p.s, e) && e.MigratedPageOf() != []
    ensures Invariant(Progress(Step(p.s, e), p.history, p.migrated + e.MigratedPageOf()), token)
  {
    hide Invariant, State.OnMigrated;
    var was := p.s.migratedSearch.value;
    MigratedPageKeeps(p, token, e.MigratedPageOf()[0], if e.MigratedPage? then was.Received(e.page) else was.Failed());
  }

  lemma StepKeepsInvariant(p: Progress, token: string, e: Event)
    requires token != "" && Invariant(p, token) && Enabled(p.s, e)
    ensures Invariant(Progress(Step(p.s, e), p.history + e.HistoryPageOf(), p.migrated + e.MigratedPageOf()), token)
  {
    assert p.history + [] == p.history && p.migrated + [] == p.migrated;
    assert e.HistoryPageOf() == [] || e.MigratedPageOf() == [];
    hide Invariant, Step, Enabled, Event.HistoryPageOf, Event.MigratedPageOf;
    if e.HistoryPageOf() != [] {
      HistoryStepKeeps(p, token, e);
    } else if e.MigratedPageOf() != [] {
      MigratedStepKeeps(p, token, e);
    } else {
      OtherStepKeeps(p, token, e);
    }
  }

  lemma {:induction false} RunKeepsInvariant(migrated: bool, token: string, events: seq<Event>)
    requires token != ""
    ensures Invariant(Run(migrated, token, events), token)
    decreases |events|
  {
    if events != [] {
      hide Invariant, Step;
      var n := |events| - 1;
      var p, e := Run(migrated, token, events[..n]), events[n];
      RunKeepsInvariant(migrated, token, events[..n]);
      if Enabled(p.s, e) {
        StepKeepsInvariant(p, token, e);
      }
    }
  }

  // In every run the list is the history pages received so far in order, followed, once the
  // history is complete, by the migrated pages received so far, each page once.
  lemma ShownMessages(migrated: bool, token: string, events: seq<Event>)
    requires token != ""
    ensures var p := Run(migrated, token, events);
            p.s.concated.messages ==
            Messages(p.history) + (if Complete(p.history) then Messages(p.migrated) else [])
  {
    RunKeepsInvariant(migrated, token, events);
  }

  // The migrated total is added once, when both first pages are there, and the one event for
  // new results fires only then; without a migrated chat the first history page fires it.
  lemma TotalAddedOnce(token: string, events: seq<Event>)
    requires token != ""
    ensures var p := Run(true, token, events);
            && p.s.concated.total == ReportedTotal(p.history, p.migrated)
            && p.s.waitingForTotal == !TotalKnown(p.history, p.migrated)
            && Count(p.s.fired, NewFounds) == (if TotalKnown(p.history, p.migrated) then 1 else 0)
    ensures var p := Run(false, token, events);
            && Count(p.s.fired, NewFounds) == (if p.history == [] then 0 else 1)
            && p.s.concated.total == (if p.history == [] then -1 else p.history[0].total)
  {
    RunKeepsInvariant(true, token, events);
    RunKeepsInvariant(false, token, events);
    KeepsSides(true, token, events);
    KeepsSides(false, token, events);
  }

  lemma StepKeepsSides(s: State, e: Event)
    requires Enabled(s, e)
    ensures Step(s, e).migratedSearch.Some? == s.migratedSearch.Some?
  {
  }

  lemma {:induction false} KeepsSides(migrated: bool, token: string, events: seq<Event>)
    ensures Run(migrated, token, events).s.migratedSearch.Some? == migrated
    decreases |events|
  {
    if events != [] {
      hide Step;
      var n := |events| - 1;
      KeepsSides(migrated, token, events[..n]);
      if Enabled(Run(migrated, token, events[..n]).s, events[n]) {
        StepKeepsSides(Run(migrated, token, events[..n]).s, events[n]);
      }
    }
  }

  // What is shown and announced does not depend on how the answers of the two sides, failed
  // requests and calls of searchMore interleave.
  lemma InterleavingIrrelevant(migrated: bool, token: string, events: seq<Event>, others: seq<Event>)
    requires token != ""
    requires Run(migrated, token, events).history == Run(migrated, token, others).history
    requires Run(migrated, token, events).migrated == Run(migrated, token, others).migrated
    ensures var s, t := Run(migrated, token, events).s, Run(migrated, token, others).s;
            && s.concated.messages == t.concated.messages && s.concated.total == t.concated.total
            && s.isFull == t.isFull && s.waitingForTotal == t.waitingForTotal
            && Count(s.fired, NewFounds) == Count(t.fired, NewFounds)
            && Count(s.fired, NextFounds) == Count(t.fired, NextFounds)
  {
    RunKeepsInvariant(migrated, token, events);
    RunKeepsInvariant(migrated, token, others);
    KeepsSides(migrated, token, events);
    KeepsSides(migrated, token, others);
  }

  // ----- what each side asks for -----

  // The last page that a side has really answered with, refused queries apart.
  function LastPage(migrated: bool, token: string, events: seq<Event>, side: Side): Option<Page>
    decreases |events|
  {
    if events == [] then None
    else
      var n := |events| - 1;
      var s, e := Run(migrated, token, events[..n]).s, events[n];
      if Enabled(s, e) && side.History? && e.HistoryPage? then Some(e.page)
      else if Enabled(s, e) && side.Migrated? && e.MigratedPage? then Some(e.page)
      else LastPage(migrated, token, events[..n], side)
  }

  datatype Side = History | Migrated

  // The next request of a side starts where its last page ended, and there is none after the
  // last page of all.
  predicate Continues(pager: Pager, last: Option<Page>) {
    && pager.offsetId == (if last.Some? then last.value.nextFromMessageId else 0)
    && pager.full == (last.Some? && last.value.nextFromMessageId == 0)
  }

  lemma HandlersKeepPagers()
    ensures forall s: State, data ::
              s.OnHistory(data).apiSearch == s.apiSearch && s.OnHistory(data).migratedSearch == s.migratedSearch
    ensures forall s: State, data ::
              s.OnMigrated(data).apiSearch == s.apiSearch && s.OnMigrated(data).migratedSearch == s.migratedSearch
  {
  }

  lemma StepContinues(s: State, e: Event)
    requires Enabled(s, e)
    ensures var t := Step(s, e);
            && t.apiSearch.offsetId == (if e.HistoryPage? then e.page.nextFromMessageId else s.apiSearch.offsetId)
            && t.apiSearch.full == (if e.HistoryPage? then e.page.nextFromMessageId == 0 else s.apiSearch.full)
            && t.migratedSearch.Some? == s.migratedSearch.Some?
            && (t.migratedSearch.Some? ==>
                  var was, pager := s.migratedSearch.value, t.migratedSearch.value;
                  && pager.offsetId == (if e.MigratedPage? then e.page.nextFromMessageId else was.offsetId)
                  && pager.full == (if e.MigratedPage? then e.page.nextFromMessageId == 0 else was.full))
  {
    HandlersKeepPagers();
    hide State.OnHistory, State.OnMigrated;
  }

  // In every run each side goes on from its own last page.
  lemma {:induction false} SidesContinue(migrated: bool, token: string, events: seq<Event>)
    ensures var s := Run(migrated, token, events).s;
            && Continues(s.apiSearch, LastPage(migrated, token, events, History))
            && (s.migratedSearch.Some? ==>
                  Continues(s.migratedSearch.value, LastPage(migrated, token, events, Migrated)))
    decreases |events|
  {
    if events != [] {
      hide Step;
      var n := |events| - 1;
      var s := Run(migrated, token, events[..n]).s;
      SidesContinue(migrated, token, events[..n]);
      if Enabled(s, events[n]) {
        StepContinues(s, events[n]);
      }
    }
  }

  // In every run, asking for more asks the migrated chat once the history is complete, and
  // the history before; it sends a request exactly when that side has none in flight and has
  // not given its last page, and changes nothing otherwise.
  lemma AsksForMore(migrated: bool, token: string, events: seq<Event>)
    requires token != ""
    ensures var p := Run(migrated, token, events);
            var s, t := p.s, Step(p.s, SearchMore);
            if migrated && Complete(p.history) then
              var last := LastPage(migrated, token, events, Migrated);
              && s.migratedSearch.Some?
              && var was := s.migratedSearch.value;
              && t == s.(migratedSearch := Some(was.(pending := was.pending || last.None? || last.value.nextFromMessageId != 0)))
            else
              var was, last := s.apiSearch, LastPage(migrated, token, events, History);
              t == s.(apiSearch := was.(pending := was.pending || last.None? || last.value.nextFromMessageId != 0))
  {
    RunKeepsInvariant(migrated, token, events);
    KeepsSides(migrated, token, events);
    SidesContinue(migrated, token, events);
    hide Run, LastPage, Complete, FirstPageKept, TurnsTaken, Notified;
  }

  // The smallest example of a refused query: it announces an empty history that is complete.
  lemma RefusedFromTheStart(migrated: bool, token: string)
    requires token != ""
    ensures var s := Run(migrated, token, [HistoryFailed(true)]).s;
            && s.concated == FoundMessages(0, [], token, false) && s.isFull
            && s.apiSearch == Pager(token, false, 0, false)
            && s.waitingForTotal == migrated && s.fired == (if migrated then [] else [NewFounds])
  {
    assert [HistoryFailed(true)][..0] == [];
    SearchAsksBoth(migrated, token);
  }

  // A search asks both sides from the start.
  lemma SearchAsksBoth(migrated: bool, token: string)
    ensures var s := Run(migrated, token, []).s;
            && s.apiSearch == Pager(token, true, 0, false)
            && s.migratedSearch == (if migrated then Some(Pager(token, true, 0, false)) else None)
            && s.waitingForTotal == migrated && s.fired == []
  {
  }

  // An answer, a failure and a refusal all end the request they belong to, and no other.
  lemma AnswerEndsRequest(s: State, e: Event)
    requires Enabled(s, e) && !e.SearchMore?
    ensures var t := Step(s, e);
            if e.HistoryPage? || e.HistoryFailed? then !t.apiSearch.pending && t.migratedSearch == s.migratedSearch
            else t.migratedSearch.Some? && !t.migratedSearch.value.pending && t.apiSearch == s.apiSearch
  {
    HandlersKeepPagers();
    hide State.OnHistory, State.OnMigrated;
  }

  // ----- the object -----

  class MessagesSearchMerged {
    var apiSearch: Pager
    var migratedSearch: Option<Pager>
    var migratedFirstFound: FoundMessages
    var concatedFound: FoundMessages
    var waitingForTotal: bool
    var isFull: bool
    var fired: seq<Fired>

    ghost function View(): State
      reads this
    {
      State(apiSearch, migratedSearch, concatedFound, migratedFirstFound, waitingForTotal, isFull, fired)
    }

    constructor (migrated: bool)
      ensures View() == Fresh(migrated)
    {
      var pager := Pager("", false, 0, false);
      apiSearch := pager;
      migratedSearch := if migrated then Some(pager) else None;
      migratedFirstFound, concatedFound := NOTHING, NOTHING;
      waitingForTotal, isFull, fired := false, false, [];
    }

    method AddFound(data: FoundMessages)
      modifies this`concatedFound
      ensures View() == old(View()).AddFound(data)
    {
      var i := 0;
      while i < |data.messages|
        invariant 0 <= i <= |data.messages|
        invariant concatedFound == old(concatedFound).(messages := old(concatedFound).messages + data.messages[..i])
      {
        concatedFound := concatedFound.(messages := concatedFound.messages + [data.messages[i]]);
        i := i + 1;
      }
      assert data.messages[..i] == data.messages;
    }

    method CheckWaitingForTotal()
      modifies this
      ensures View() == old(View()).CheckWaitingForTotal()
    {
      if waitingForTotal {
        if concatedFound.total >= 0 && migratedFirstFound.total >= 0 {
          waitingForTotal := false;
          concatedFound := concatedFound.(total := concatedFound.total + migratedFirstFound.total);
          fired := fired + [NewFounds];
        }
      } else {
        fired := fired + [NewFounds];
      }
    }

    method CheckFull(data: FoundMessages)
      modifies this
      ensures View() == old(View()).CheckFull(data)
    {
      if data.total == |concatedFound.messages| {
        isFull := true;
        AddFound(migratedFirstFound);
      } else if data.full {
        isFull := true;
        AddFound(migratedFirstFound);
      }
    }

    method OnHistoryFound(data: FoundMessages)
      modifies this
      ensures View() == old(View()).OnHistory(data)
    {
      if data.nextToken == concatedFound.nextToken {
        AddFound(data);
        CheckFull(data);
        fired := fired + [NextFounds];
      } else {
        concatedFound := data;
        CheckFull(data);
        CheckWaitingForTotal();
      }
    }

    method OnMigratedFound(data: FoundMessages)
      modifies this
      ensures View() == old(View()).OnMigrated(data)
    {
      if isFull {
        AddFound(data);
      }
      if data.nextToken == migratedFirstFound.nextToken {
        fired := fired + [NextFounds];
      } else {
        migratedFirstFound := data;
        CheckWaitingForTotal();
      }
    }

    method Search(token: string)
      modifies this
      ensures View() == Searched(old(View()), token)
    {
      if migratedSearch.Some? {
        waitingForTotal := true;
        migratedSearch := Some(migratedSearch.value.SearchMessages(token));
      }
      apiSearch := apiSearch.SearchMessages(token);
    }

    method More()
      modifies this
      ensures View() == Step(old(View()), SearchMore)
    {
      if migratedSearch.Some? && isFull {
        migratedSearch := Some(migratedSearch.value.SearchMore());
      } else {
        apiSearch := apiSearch.SearchMore();
      }
    }

    // The answer or the failure of a request of either side reaches its handler.
    method Deliver(e: Event)
      requires Enabled(View(), e) && !e.SearchMore?
      modifies this
      ensures View() == Step(old(View()), e)
    {
      match e
      case HistoryPage(page) =>
        var found := apiSearch.Found(page);
        apiSearch := apiSearch.Received(page);
        OnHistoryFound(found);
      case MigratedPage(page) =>
        var found := migratedSearch.value.Found(page);
        migratedSearch := Some(migratedSearch.value.Received(page));
        OnMigratedFound(found);
      case HistoryFailed(refused) =>
        apiSearch := apiSearch.Failed();
        if refused {
          OnHistoryFound(apiSearch.Found(REFUSED));
        }
      case MigratedFailed(refused) =>
        migratedSearch := Some(migratedSearch.value.Failed());
        if refused {
          OnMigratedFound(migratedSearch.value.Found(REFUSED));
        }
    }
  }
}
