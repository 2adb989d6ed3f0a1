// ApiWrap::saveStickerSets: the loops over the table, proved against StickerTable set by set,
// and the requests, proved against StickerProtocol.
module StickerSave {
  import opened Wrappers
  import opened StickerTable
  import opened StickerProtocol

  // ----- which requests a save sends -----

  function RemovalRequest(before: Table, r: SetId): seq<Order> {
    if IsCloud(r) then [ClearRecentStickers(r == CLOUD_RECENT_ATTACHED_SET_ID)]
    else if r in before && !before[r].archived then [ChangeSet(r, false)]
    else []
  }

  function RemovalRequests(sets: Table, removed: seq<SetId>): seq<Order> {
    if removed == [] then []
    else
      var n := |removed| - 1;
      RemovalRequests(sets, removed[..n]) + RemovalRequest(AfterRemovals(sets, removed[..n]), removed[n])
  }

  function InstallRequest(before: Table, removed: seq<SetId>, id: SetId): seq<Order> {
    if id in before && before[id].archived && id !in removed then [ChangeSet(id, true)] else []
  }

  function InstallRequests(sets: Table, order: seq<SetId>, removed: seq<SetId>, now: int): seq<Order> {
    if order == [] then []
    else
      var n := |order| - 1;
      InstallRequests(sets, order[..n], removed, now)
      + InstallRequest(AfterInstalls(sets, order[..n], removed, now), removed, order[n])
  }

  function Requests(sets: Table, order: seq<SetId>, removed: seq<SetId>, kind: StickersType, now: int): seq<Order> {
    RemovalRequests(sets, removed)
    + InstallRequests(AfterClearing(AfterRemovals(sets, removed), kind), order, removed, now)
  }

  // How often a set is removed before a cloud set takes it away.
  function Turns(removed: seq<SetId>, id: SetId): nat {
    if removed == [] then 0
    else
      var n := |removed| - 1;
      Turns(removed[..n], id) + if removed[n] == id && !(id in CLEARED && ClearsRecent(removed[..n])) then 1 else 0
  }

  lemma {:induction false} SomeTurn(removed: seq<SetId>, id: SetId)
    ensures !(ClearsRecent(removed) && id in CLEARED) ==> (Turns(removed, id) > 0 <==> id in removed)
  {
    if removed != [] {
      var n := |removed| - 1;
      SomeTurn(removed[..n], id);
      assert removed == removed[..n] + [removed[n]];
      OneMoreRemoved(removed[..n], removed[n], id);
    }
  }

  // Uninstalling is requested exactly for the removed sets that are known and not archived:
  // once if the set is deleted by that, otherwise as often as it is removed.
  lemma {:induction false} UninstallsRequested(sets: Table, removed: seq<SetId>, id: SetId)
    ensures multiset(RemovalRequests(sets, removed))[ChangeSet(id, false)] ==
            if IsCloud(id) || id !in sets || sets[id].archived then 0
            else if sets[id].Forgotten() && Turns(removed, id) > 0 then 1
            else Turns(removed, id)
    ensures multiset(RemovalRequests(sets, removed))[ChangeSet(id, true)] == 0
  {
    if removed != [] {
      var n := |removed| - 1;
      var before := RemovalRequests(sets, removed[..n]);
      var last := RemovalRequest(AfterRemovals(sets, removed[..n]), removed[n]);
      UninstallsRequested(sets, removed[..n], id);
      UninstallRequestedNow(sets, removed[..n], removed[n], id);
      assert RemovalRequests(sets, removed) == before + last;
      hide RemovalRequests, RemovalRequest, AfterRemovals, ClearsRecent, IsCloud;
      assert multiset(before + last) == multiset(before) + multiset(last);
    }
  }

  lemma UninstallRequestedNow(sets: Table, removed: seq<SetId>, r: SetId, id: SetId)
    ensures var last := RemovalRequest(AfterRemovals(sets, removed), r);
            && multiset(last)[ChangeSet(id, true)] == 0
            && multiset(last)[ChangeSet(id, false)] ==
               if r == id && !IsCloud(id) && id in sets && !sets[id].archived
                  && !(id in CLEARED && ClearsRecent(removed))
                  && !(sets[id].Forgotten() && Turns(removed, id) > 0) then 1 else 0
  {
    SomeTurn(removed, id);
  }

  // Clearing recent stickers is requested once for each mention of the cloud set.
  lemma {:induction false} ClearsRequested(sets: Table, removed: seq<SetId>, attached: bool)
    ensures multiset(RemovalRequests(sets, removed))[ClearRecentStickers(attached)] ==
            multiset(removed)[if attached then 0xFFFF_FFFF_FFFF_FFF9 else 0xFFFF_FFFF_FFFF_FFFC]
  {
    if removed != [] {
      var n := |removed| - 1;
      var front, r := removed[..n], removed[n];
      var before, last := RemovalRequests(sets, front), RemovalRequest(AfterRemovals(sets, front), r);
      assert RemovalRequests(sets, removed) == before + last;
      hide *;
      ClearsRequested(sets, front, attached);
      ClearRequestedNow(AfterRemovals(sets, front), r, attached);
      assert removed == front + [r];
      assert multiset(before + last) == multiset(before) + multiset(last);
    }
  }

  lemma ClearRequestedNow(before: Table, r: SetId, attached: bool)
    ensures multiset(RemovalRequest(before, r))[ClearRecentStickers(attached)] ==
            if r == (if attached then 0xFFFF_FFFF_FFFF_FFF9 else 0xFFFF_FFFF_FFFF_FFFC) then 1 else 0
  {
  }

  // An archived set that is installed again when it is in the order.
  predicate InstallsAgain(sets: Table, removed: seq<SetId>, id: SetId) {
    id in sets && sets[id].archived && id !in removed && !(ClearsRecent(removed) && id in CLEARED)
  }

  // Installing is requested exactly once for each such set of the order, and nothing else is
  // requested for the sets of the order.
  lemma InstallsRequested(sets: Table, order: seq<SetId>, removed: seq<SetId>, kind: StickersType, now: int, id: SetId)
    ensures var requests := InstallRequests(AfterClearing(AfterRemovals(sets, removed), kind), order, removed, now);
            && multiset(requests)[ChangeSet(id, true)] == (if id in order && InstallsAgain(sets, removed, id) then 1 else 0)
            && (forall o :: o in requests ==> o.ChangeSet? && o.install)
  {
    InstallsOf(AfterClearing(AfterRemovals(sets, removed), kind), order, removed, now, id);
  }

  lemma SomeInstallRequested(sets: Table, order: seq<SetId>, removed: seq<SetId>, kind: StickersType, now: int)
    ensures InstallRequests(AfterClearing(AfterRemovals(sets, removed), kind), order, removed, now) != [] <==>
            exists id :: id in order && InstallsAgain(sets, removed, id)
  {
    var requests := InstallRequests(AfterClearing(AfterRemovals(sets, removed), kind), order, removed, now);
    if requests != [] {
      var id := if requests[0].ChangeSet? then requests[0].setId else 0;
      InstallsRequested(sets, order, removed, kind, now, id);
      assert requests[0] in requests;
    }
    if id :| id in order && InstallsAgain(sets, removed, id) {
      InstallsRequested(sets, order, removed, kind, now, id);
    }
  }

  lemma {:induction false} InstallsOf(table: Table, order: seq<SetId>, removed: seq<SetId>, now: int, id: SetId)
    ensures var requests := InstallRequests(table, order, removed, now);
            && multiset(requests)[ChangeSet(id, true)] ==
               (if id in order && id in table && table[id].archived && id !in removed then 1 else 0)
            && (forall o :: o in requests ==> o.ChangeSet? && o.install)
  {
    if order != [] {
      var n := |order| - 1;
      var before := InstallRequests(table, order[..n], removed, now);
      var last := InstallRequest(AfterInstalls(table, order[..n], removed, now), removed, order[n]);
      assert InstallRequests(table, order, removed, now) == before + last;
      InstallOf(table, order[..n], removed, now, order[n], id);
      assert id in order <==> id in order[..n] || id == order[n] by {
        assert order == order[..n] + [order[n]];
      }
      InstallsOf(table, order[..n], removed, now, id);
      hide InstallRequest, InstallRequests, AfterInstalls;
      assert multiset(before + last) == multiset(before) + multiset(last);
    }
  }

  lemma InstallOf(table: Table, order: seq<SetId>, removed: seq<SetId>, now: int, last: SetId, id: SetId)
    ensures var requests := InstallRequest(AfterInstalls(table, order, removed, now), removed, last);
            && multiset(requests)[ChangeSet(id, true)] ==
               (if last == id && id !in order && id in table && table[id].archived && id !in removed then 1 else 0)
            && (forall o :: o in requests ==> o.ChangeSet? && o.install)
  {
  }

  lemma NothingInstalled(sets: Table, removed: seq<SetId>, now: int)
    ensures AfterInstalls(sets, [], removed, now) == sets
  {
  }

  // ----- recent stickers -----

  lemma {:induction false} WithoutTwice(recent: seq<Recent>, a: set<DocumentId>, b: set<DocumentId>)
    ensures Without(Without(recent, a), b) == Without(recent, a + b)
  {
    if recent != [] {
      var n := |recent| - 1;
      WithoutTwice(recent[..n], a, b);
      var front := Without(recent[..n], a);
      if recent[n].document in a {
        assert front + [] == front;
      } else {
        assert (front + [recent[n]])[..|front|] == front;
      }
    }
  }

  lemma {:induction false} WithoutNothing(recent: seq<Recent>, a: set<DocumentId>)
    ensures |Without(recent, a)| <= |recent|
    ensures |Without(recent, a)| == |recent| ==> Without(recent, a) == recent
    ensures Without(recent, {}) == recent
  {
    if recent != [] {
      var n := |recent| - 1;
      WithoutNothing(recent[..n], a);
      assert recent == recent[..n] + [recent[n]];
      if recent[n].document in a {
        assert Without(recent, a) == Without(recent[..n], a) + [];
      } else {
        assert Without(recent, a) == Without(recent[..n], a) + [recent[n]];
      }
      assert Without(recent, {}) == Without(recent[..n], {}) + [recent[n]];
      hide Without;
    }
  }

  function OneErased(recent: seq<Recent>, before: Table, r: SetId): seq<Recent> {
    if IsCloud(r) then []
    else if r in before then Without(recent, set d | d in before[r].stickers)
    else recent
  }

  // Exactly the entries of the given documents are left out; the others keep their number
  // and, as the next lemma says of any division of the list, their order.
  lemma {:induction false} WithoutElements(recent: seq<Recent>, gone: set<DocumentId>, x: Recent)
    ensures multiset(Without(recent, gone))[x] == if x.document in gone then 0 else multiset(recent)[x]
  {
    if recent != [] {
      var n := |recent| - 1;
      WithoutElements(recent[..n], gone, x);
      assert recent == recent[..n] + [recent[n]];
    }
  }

  lemma {:induction false} WithoutConcat(a: seq<Recent>, b: seq<Recent>, gone: set<DocumentId>)
    ensures Without(a + b, gone) == Without(a, gone) + Without(b, gone)
  {
    if b == [] {
      assert a + b == a;
    } else {
      var n := |b| - 1;
      assert (a + b)[..|a + b| - 1] == a + b[..n];
      WithoutConcat(a, b[..n], gone);
    }
  }

  // After a save exactly those recent stickers are left that no removed set has, and none
  // when a cloud set is removed.
  lemma RecentAfterSave(recent: seq<Recent>, sets: Table, removed: seq<SetId>, x: Recent)
    ensures multiset(SavedRecent(recent, sets, removed))[x] ==
            if (0xFFFF_FFFF_FFFF_FFFC in removed || 0xFFFF_FFFF_FFFF_FFF9 in removed)
               || (exists r :: r in removed && r in sets && x.document in sets[r].stickers) then 0
            else multiset(recent)[x]
  {
    CloudIds(removed, CUSTOM_SET_ID);
    WithoutElements(recent, Gone(sets, removed), x);
    assert ClearsRecent(removed) <==> 0xFFFF_FFFF_FFFF_FFFC in removed || 0xFFFF_FFFF_FFFF_FFF9 in removed;
  }

  lemma OneMoreGone(sets: Table, removed: seq<SetId>, r: SetId)
    ensures Gone(sets, removed + [r]) ==
            Gone(sets, removed) + if !IsCloud(r) && r in sets then (set d | d in sets[r].stickers) else {}
  {
    assert forall id :: id in removed + [r] <==> id in removed || id == r;
  }

  // A set that is no longer there has already been removed once.
  lemma AlreadyGone(sets: Table, removed: seq<SetId>, r: SetId)
    requires !ClearsRecent(removed) && !IsCloud(r) && r !in AfterRemovals(sets, removed)
    ensures Gone(sets, removed + [r]) == Gone(sets, removed)
  {
    OneMoreGone(sets, removed, r);
  }

  lemma RecentErasedSetBySet(recent: seq<Recent>, sets: Table, removed: seq<SetId>, r: SetId)
    ensures SavedRecent(recent, sets, removed + [r]) ==
            OneErased(SavedRecent(recent, sets, removed), AfterRemovals(sets, removed), r)
  {
    OneMoreRemoved(removed, r, r);
    if !ClearsRecent(removed) && !IsCloud(r) {
      if r in AfterRemovals(sets, removed) {
        OneMoreGone(sets, removed, r);
        WithoutTwice(recent, Gone(sets, removed), set d | d in sets[r].stickers);
      } else {
        AlreadyGone(sets, removed, r);
      }
    }
  }

  lemma NothingRemoved(recent: seq<Recent>, sets: Table)
    ensures AfterRemovals(sets, []) == sets && SavedRecent(recent, sets, []) == recent
  {
    assert Gone(sets, []) == {};
    WithoutNothing(recent, {});
  }

  // The loop that erases the documents of one set from the recent stickers.
  method EraseRecent(recent: seq<Recent>, stickers: seq<DocumentId>) returns (r: seq<Recent>, erased: bool)
    ensures r == Without(recent, set d | d in stickers)
    ensures erased <==> |r| < |recent|
  {
    r, erased := [], false;
    ghost var gone := set d | d in stickers;
    var i := 0;
    while i < |recent|
      invariant 0 <= i <= |recent|
      invariant r == Without(recent[..i], gone)
      invariant |r| <= i && (erased <==> |r| < i)
    {
      if recent[i].document in stickers {
        erased := true;
      } else {
        r := r + [recent[i]];
      }
      assert recent[..i + 1][..i] == recent[..i];
      i := i + 1;
    }
    assert recent[..i] == recent;
  }

  // ----- loops over the table -----

  method ClearFlag(set_: StickersSet, kind: StickersType) returns (r: StickersSet)
    ensures r == set_.Cleared(kind)
  {
    r := set_;
    if !set_.archived && set_.Type() == kind {
      r := set_.(installed := false);
    }
  }

  method ClearInstalled(sets: Table, kind: StickersType) returns (r: Table)
    ensures r == AfterClearing(sets, kind)
  {
    hide StickersSet.Cleared, StickersSet.Type;
    r := sets;
    var rest := sets.Keys;
    while rest != {}
      invariant rest <= sets.Keys == r.Keys
      invariant forall id :: id in rest ==> r[id] == sets[id]
      invariant forall id :: id in sets && id !in rest ==> r[id] == sets[id].Cleared(kind)
      decreases |rest|
    {
      var id :| id in rest;
      var cleared := ClearFlag(r[id], kind);
      r := r[id := cleared];
      rest := rest - {id};
    }
  }

  method InstallFlags(set_: StickersSet, unarchive: bool, now: int) returns (r: StickersSet)
    ensures r == set_.Installed(!unarchive, now)
  {
    r := set_;
    if unarchive {
      r := r.(archived := false);
    }
    r := r.(installed := true);
    if r.installDate == 0 {
      r := r.(installDate := now);
    }
  }

  method Prune(sets: Table) returns (r: Table)
    ensures r == AfterPruning(sets)
  {
    r := sets;
    var rest := sets.Keys;
    while rest != {}
      invariant rest <= sets.Keys && rest <= r.Keys <= sets.Keys
      invariant forall id :: id in sets && id !in rest ==> (id in r <==> sets[id].Kept())
      invariant forall id :: id in r ==> r[id] == sets[id]
      decreases |rest|
    {
      var id :| id in rest;
      if !r[id].Kept() {
        r := r - {id};
      }
      rest := rest - {id};
    }
  }

  // ----- the object -----

  lemma {:induction false} OrderedTogether(s: State, kind: StickersType, a: seq<Order>, b: seq<Order>)
    requires s.current.Get(kind).Some?
    ensures Ordered(Ordered(s, kind, a), kind, b) == Ordered(s, kind, a + b)
  {
    if b == [] {
      assert a + b == a;
    } else {
      var n := |b| - 1;
      OrderedTogether(s, kind, a, b[..n]);
      assert (a + b)[..|a| + n] == a + b[..n];
    }
  }

  lemma OneOrder(s: State, kind: StickersType, o: Order)
    requires s.current.Get(kind).Some?
    ensures Ordered(s, kind, []) == s
    ensures Ordered(s, kind, [o]) ==
            if o.ChangeSet? then Changed(s, kind, o.setId, o.install) else RecentCleared(s, o.attached)
  {
    assert [o][..0] == [];
    assert Ordered(s, kind, [o][..0]) == s;
  }

  // One more removed set, as the loop over the removed sets sees it.
  lemma RemovalStep(s: State, kind: StickersType, recent: seq<Recent>, sets: Table, removed: seq<SetId>, r: SetId)
    requires s.current.Get(kind).Some?
    ensures var before := AfterRemovals(sets, removed);
            && AfterRemovals(sets, removed + [r]) == OneRemoved(before, r)
            && SavedRecent(recent, sets, removed + [r]) == OneErased(SavedRecent(recent, sets, removed), before, r)
            && Ordered(s, kind, RemovalRequests(sets, removed + [r])) ==
               Ordered(Ordered(s, kind, RemovalRequests(sets, removed)), kind, RemovalRequest(before, r))
            && (forall id :: id in {CLOUD_RECENT_SET_ID, CLOUD_RECENT_ATTACHED_SET_ID} ==>
                  (ClearsRecent(removed + [r]) && id in sets <==>
                     (ClearsRecent(removed) && id in sets) || (IsCloud(r) && id in before)))
  {
    SetsRemovedOneByOne(sets, removed, r);
    RecentErasedSetBySet(recent, sets, removed, r);
    OneMoreRemoved(removed, r, r);
    assert (removed + [r])[..|removed|] == removed;
    OrderedTogether(s, kind, RemovalRequests(sets, removed), RemovalRequest(AfterRemovals(sets, removed), r));
  }

  lemma InstallStep(s: State, kind: StickersType, sets: Table, order: seq<SetId>, removed: seq<SetId>, now: int, id: SetId)
    requires s.current.Get(kind).Some?
    ensures var before := AfterInstalls(sets, order, removed, now);
            var request := InstallRequest(before, removed, id);
            && before.Keys == sets.Keys
            && AfterInstalls(sets, order + [id], removed, now) == OneInstalled(before, id, removed, now)
            && Present(order + [id], sets) == Present(order, sets) + (if id in sets then [id] else [])
            && (InstallRequests(sets, order + [id], removed, now) != [] <==>
                  InstallRequests(sets, order, removed, now) != [] || request != [])
            && Ordered(s, kind, InstallRequests(sets, order + [id], removed, now)) ==
               Ordered(Ordered(s, kind, InstallRequests(sets, order, removed, now)), kind, request)
  {
    SetsInstalledOneByOne(sets, order, removed, now, id);
    assert (order + [id])[..|order|] == order;
    OrderedTogether(s, kind, InstallRequests(sets, order, removed, now),
                    InstallRequest(AfterInstalls(sets, order, removed, now), removed, id));
  }

  function WithoutFirst(order: seq<SetId>, id: SetId): seq<SetId> {
    if order == [] then [] else if order[0] == id then order[1..] else [order[0]] + WithoutFirst(order[1..], id)
  }

  // The first occurrence alone is taken out.
  lemma {:induction false} WithoutFirstExactly(order: seq<SetId>, id: SetId, front: seq<SetId>, back: seq<SetId>)
    requires id !in front
    ensures id !in order ==> WithoutFirst(order, id) == order
    ensures order == front + [id] + back ==> WithoutFirst(order, id) == front + back
    decreases |order|
  {
    if order != [] && order[0] != id {
      assert order == [order[0]] + order[1..];
      if order == front + [id] + back {
        assert front != [] && front[0] == order[0];
        assert order[1..] == front[1..] + [id] + back;
        WithoutFirstExactly(order[1..], id, front[1..], back);
        assert front + back == [front[0]] + (front[1..] + back);
      } else {
        WithoutFirstExactly(order[1..], id, [], []);
      }
    } else if order == front + [id] + back {
      assert front == [] && order[1..] == back;
    }
  }

  // Documents were erased exactly when the flag says so.
  predicate Erased(was: seq<Recent>, now: seq<Recent>, erased: bool) {
    |now| <= |was| && (if erased then |now| < |was| else now == was)
  }

  lemma ErasedAgain(a: seq<Recent>, b: seq<Recent>, c: seq<Recent>, erased: bool)
    requires Erased(a, b, erased)
    ensures forall more :: Erased(b, c, more) ==> Erased(a, c, erased || more)
  {
  }

  lemma ErasedMeans(a: seq<Recent>, b: seq<Recent>, erased: bool)
    requires Erased(a, b, erased)
    ensures erased <==> a != b
  {
  }

  predicate SameElsewhere(a: PerType<seq<SetId>>, b: PerType<seq<SetId>>, kind: StickersType) {
    forall other: StickersType :: other != kind ==> a.Get(other) == b.Get(other)
  }

  lemma SameElsewhereAgain(a: PerType<seq<SetId>>, b: PerType<seq<SetId>>, kind: StickersType)
    requires SameElsewhere(a, b, kind)
    ensures forall c :: SameElsewhere(b, c, kind) ==> SameElsewhere(a, c, kind)
  {
  }

  lemma SetAgain(a: PerType<seq<SetId>>, b: PerType<seq<SetId>>, kind: StickersType, order: seq<SetId>)
    requires SameElsewhere(a, b, kind)
    ensures a.Set(kind, order) == b.Set(kind, order)
  {
    assert kind != Stickers ==> a.Get(Stickers) == b.Get(Stickers);
    assert kind != Masks ==> a.Get(Masks) == b.Get(Masks);
    assert kind != Emoji ==> a.Get(Emoji) == b.Get(Emoji);
  }

  lemma SetTwice(a: PerType<seq<SetId>>, kind: StickersType, order: seq<SetId>, more: seq<SetId>)
    ensures a.Set(kind, order).Get(kind) == order && a.Set(kind, order).Set(kind, more) == a.Set(kind, more)
    ensures a.Set(kind, a.Get(kind)) == a
  {
  }

  class ApiWrap {
    // The stored stickers.
    var sets: Table
    var setsOrder: PerType<seq<SetId>>
    var recent: seq<Recent>
    // Requests of this object.
    var setDisenableRequests: PerType<set<RequestId>>
    var reorderRequestId: PerType<RequestId>
    var stickersClearRecentRequestId: RequestId
    var stickersClearRecentAttachedRequestId: RequestId
    // The sender; the local orders are what the callbacks of each save have captured.
    var inFlight: map<RequestId, Request>
    var nextId: RequestId
    var current: PerType<Option<nat>>
    var orders: seq<seq<SetId>>
    ghost var log: seq<Entry>

    ghost function View(): State
      reads this
    {
      State(setDisenableRequests, reorderRequestId, stickersClearRecentRequestId,
            stickersClearRecentAttachedRequestId, inFlight, nextId, current, orders, log)
    }

    // What a save changes in the stored data.
    ghost function Stored(): (Table, PerType<seq<SetId>>, seq<Recent>)
      reads this
    {
      (sets, setsOrder, recent)
    }

    constructor (sets: Table, recent: seq<Recent>)
      ensures View() == INITIAL && this.sets == sets && this.recent == recent
    {
      this.sets, this.recent, setsOrder := sets, recent, PerType([], [], []);
      setDisenableRequests, reorderRequestId := PerType({}, {}, {}), PerType(0, 0, 0);
      stickersClearRecentRequestId, stickersClearRecentAttachedRequestId := 0, 0;
      inFlight, nextId, current, orders, log := map[], 1, PerType(None, None, None), [], [];
    }

    method Send(request: Request) returns (id: RequestId)
      modifies this
      ensures View() == old(View()).Send(request) && id == old(nextId)
      ensures Stored() == old(Stored())
    {
      id := nextId;
      inFlight, nextId, log := inFlight[nextId := request], nextId + 1, log + [Sent(nextId, request)];
    }

    method CancelSave(kind: StickersType)
      modifies this
      ensures View() == SaveCancelled(old(View()), kind) && Stored() == old(Stored())
    {
      inFlight := inFlight - setDisenableRequests.Get(kind);
      setDisenableRequests := setDisenableRequests.Set(kind, {});
      inFlight := inFlight - {reorderRequestId.Get(kind)};
      reorderRequestId := reorderRequestId.Set(kind, 0);
    }

    method CancelClearRecent()
      modifies this
      ensures View() == ClearRecentCancelled(old(View())) && Stored() == old(Stored())
    {
      inFlight := inFlight - {stickersClearRecentRequestId};
      stickersClearRecentRequestId := 0;
      inFlight := inFlight - {stickersClearRecentAttachedRequestId};
      stickersClearRecentAttachedRequestId := 0;
    }

    method CancelPending(kind: StickersType, localOrder: seq<SetId>)
      modifies this
      ensures View() == Begun(old(View()), kind, localOrder) && Stored() == old(Stored())
      ensures current.Get(kind).Some?
    {
      CancelSave(kind);
      CancelClearRecent();
      current, orders, log := current.Set(kind, Some(|orders|)), orders + [localOrder], log + [Started(kind, |orders|)];
    }

    method SaveOrder(kind: StickersType, save: nat)
      modifies this
      ensures View() == OrderSaved(old(View()), kind, save)
      ensures Stored() == old(Stored())
    {
      var localOrder := if save < |orders| then orders[save] else [];
      if |localOrder| < 2 {
        return;
      }
      var id := Send(Reorder(kind, save, localOrder));
      reorderRequestId := reorderRequestId.Set(kind, id);
    }

    method ChangeStickerSet(kind: StickersType, setId: SetId, install: bool)
      requires current.Get(kind).Some?
      modifies this
      ensures View() == Changed(old(View()), kind, setId, install)
      ensures Stored() == old(Stored())
    {
      var id := Send(Change(kind, current.Get(kind).value, setId, install));
      setDisenableRequests := setDisenableRequests.Set(kind, setDisenableRequests.Get(kind) + {id});
    }

    method ClearRecentStickersRequest(attached: bool)
      modifies this
      ensures View() == RecentCleared(old(View()), attached)
      ensures Stored() == old(Stored())
    {
      var id := Send(ClearRecent(attached));
      if attached {
        stickersClearRecentAttachedRequestId := id;
      } else {
        stickersClearRecentRequestId := id;
      }
    }

    method RemoveCloud(kind: StickersType, r: SetId)
      returns (writeRecent: bool, writeCloudRecent: bool, writeCloudRecentAttached: bool)
      requires current.Get(kind).Some? && IsCloud(r)
      modifies this
      ensures Stored() == (old(sets) - CLEARED, old(setsOrder), [])
      ensures View() == Ordered(old(View()), kind, [ClearRecentStickers(r == CLOUD_RECENT_ATTACHED_SET_ID)])
      ensures Erased(old(recent), recent, writeRecent)
      ensures writeCloudRecent <==> CLOUD_RECENT_SET_ID in old(sets)
      ensures writeCloudRecentAttached <==> CLOUD_RECENT_ATTACHED_SET_ID in old(sets)
    {
      OneOrder(View(), kind, ClearRecentStickers(r == CLOUD_RECENT_ATTACHED_SET_ID));
      hide Ordered, RecentCleared;
      writeCloudRecent := CLOUD_RECENT_SET_ID in sets;
      writeCloudRecentAttached := CLOUD_RECENT_ATTACHED_SET_ID in sets;
      sets := sets - CLEARED;
      writeRecent := recent != [];
      recent := [];
      ClearRecentStickersRequest(r == CLOUD_RECENT_ATTACHED_SET_ID);
    }

    // A set that is not archived is uninstalled: requested, taken from the order, and deleted
    // unless something else needs it.
    method UninstallSet(kind: StickersType, r: SetId)
      requires current.Get(kind).Some? && r in sets && !sets[r].archived && !IsCloud(r)
      modifies this
      ensures sets == OneRemoved(old(sets), r) && recent == old(recent)
      ensures setsOrder == old(setsOrder).Set(kind, WithoutFirst(old(setsOrder).Get(kind), r))
      ensures View() == Ordered(old(View()), kind, [ChangeSet(r, false)])
    {
      OneOrder(View(), kind, ChangeSet(r, false));
      hide Ordered, Changed;
      ChangeStickerSet(kind, r, false);
      setsOrder := setsOrder.Set(kind, WithoutFirst(setsOrder.Get(kind), r));
      if sets[r].Forgotten() {
        sets := sets - {r};
      } else {
        sets := sets[r := sets[r].Uninstalled()];
      }
    }

    method RemoveOne(kind: StickersType, r: SetId)
      returns (writeRecent: bool, writeCloudRecent: bool, writeCloudRecentAttached: bool)
      requires current.Get(kind).Some?
      modifies this
      ensures current.Get(kind).Some?
      ensures sets == OneRemoved(old(sets), r)
      ensures recent == OneErased(old(recent), old(sets), r)
      ensures View() == Ordered(old(View()), kind, RemovalRequest(old(sets), r))
      ensures SameElsewhere(old(setsOrder), setsOrder, kind)
      ensures Erased(old(recent), recent, writeRecent)
      ensures writeCloudRecent <==> IsCloud(r) && CLOUD_RECENT_SET_ID in old(sets)
      ensures writeCloudRecentAttached <==> IsCloud(r) && CLOUD_RECENT_ATTACHED_SET_ID in old(sets)
    {
      writeRecent, writeCloudRecent, writeCloudRecentAttached := false, false, false;
      OneOrder(View(), kind, ChangeSet(r, false));
      hide Ordered, Without;
      if IsCloud(r) {
        writeRecent, writeCloudRecent, writeCloudRecentAttached := RemoveCloud(kind, r);
      } else if r in sets {
        WithoutNothing(recent, set d | d in sets[r].stickers);
        recent, writeRecent := EraseRecent(recent, sets[r].stickers);
        if !sets[r].archived {
          UninstallSet(kind, r);
        }
      }
    }

    // What holds once the sets of a list have been removed.
    ghost predicate Removed(
      kind: StickersType, start: State, had: Table, hadRecent: seq<Recent>, hadOrder: PerType<seq<SetId>>,
      removed: seq<SetId>, writeRecent: bool, writeCloudRecent: bool, writeCloudRecentAttached: bool)
      requires start.current.Get(kind).Some?
      reads this
    {
      && current.Get(kind).Some?
      && sets == AfterRemovals(had, removed)
      && recent == SavedRecent(hadRecent, had, removed)
      && View() == Ordered(start, kind, RemovalRequests(had, removed))
      && SameElsewhere(hadOrder, setsOrder, kind)
      && Erased(hadRecent, recent, writeRecent)
      && (writeCloudRecent <==> ClearsRecent(removed) && CLOUD_RECENT_SET_ID in had)
      && (writeCloudRecentAttached <==> ClearsRecent(removed) && CLOUD_RECENT_ATTACHED_SET_ID in had)
    }

    lemma NothingRemovedYet(kind: StickersType)
      requires current.Get(kind).Some?
      ensures Removed(kind, View(), sets, recent, setsOrder, [], false, false, false)
    {
      NothingRemoved(recent, sets);
      OneOrder(View(), kind, ClearRecentStickers(false));
      assert RemovalRequests(sets, []) == [] && !ClearsRecent([]);
    }

    method RemoveNext(
      kind: StickersType, r: SetId, ghost start: State, ghost had: Table, ghost hadRecent: seq<Recent>,
      ghost hadOrder: PerType<seq<SetId>>, ghost done: seq<SetId>, wasRecent: bool, wasCloud: bool, wasAttached: bool)
      returns (writeRecent: bool, writeCloudRecent: bool, writeCloudRecentAttached: bool)
      requires start.current.Get(kind).Some?
      requires Removed(kind, start, had, hadRecent, hadOrder, done, wasRecent, wasCloud, wasAttached)
      modifies this
      ensures Removed(kind, start, had, hadRecent, hadOrder, done + [r],
                      writeRecent, writeCloudRecent, writeCloudRecentAttached)
    {
      RemovalStep(start, kind, hadRecent, had, done, r);
      SameElsewhereAgain(hadOrder, setsOrder, kind);
      ErasedAgain(hadRecent, recent, OneErased(recent, sets, r), wasRecent);
      hide View, Ordered, AfterRemovals, SavedRecent, RemovalRequests, SameElsewhere, Erased, ClearsRecent;
      hide IsCloud, OneRemoved, OneErased, RemovalRequest;
      writeRecent, writeCloudRecent, writeCloudRecentAttached := RemoveOne(kind, r);
      writeRecent, writeCloudRecent := wasRecent || writeRecent, wasCloud || writeCloudRecent;
      writeCloudRecentAttached := wasAttached || writeCloudRecentAttached;
    }

    method RemoveSets(kind: StickersType, localRemoved: seq<SetId>)
      returns (writeRecent: bool, writeCloudRecent: bool, writeCloudRecentAttached: bool)
      requires current.Get(kind).Some?
      modifies this
      ensures Removed(kind, old(View()), old(sets), old(recent), old(setsOrder), localRemoved,
                      writeRecent, writeCloudRecent, writeCloudRecentAttached)
    {
      writeRecent, writeCloudRecent, writeCloudRecentAttached := false, false, false;
      ghost var start, had, hadRecent, hadOrder := View(), sets, recent, setsOrder;
      NothingRemovedYet(kind);
      assert start.current.Get(kind).Some?;
      hide *;
      var i := 0;
      assert localRemoved[..0] == [];
      while i < |localRemoved|
        invariant 0 <= i <= |localRemoved|
        invariant Removed(kind, start, had, hadRecent, hadOrder, localRemoved[..i],
                          writeRecent, writeCloudRecent, writeCloudRecentAttached)
      {
        assert localRemoved[..i + 1] == localRemoved[..i] + [localRemoved[i]];
        writeRecent, writeCloudRecent, writeCloudRecentAttached := RemoveNext(
          kind, localRemoved[i], start, had, hadRecent, hadOrder, localRemoved[..i],
          writeRecent, writeCloudRecent, writeCloudRecentAttached);
        i := i + 1;
      }
      assert localRemoved[..i] == localRemoved;
    }

    method InstallOne(kind: StickersType, id: SetId, localRemoved: seq<SetId>, now: int) returns (sent: bool)
      requires current.Get(kind).Some?
      modifies this
      ensures sets == OneInstalled(old(sets), id, localRemoved, now)
      ensures setsOrder == old(setsOrder).Set(
                kind, old(setsOrder).Get(kind) + if id in old(sets) then [id] else [])
      ensures View() == Ordered(old(View()), kind, InstallRequest(old(sets), localRemoved, id))
      ensures sent <==> InstallRequest(old(sets), localRemoved, id) != []
      ensures recent == old(recent)
    {
      sent := false;
      OneOrder(View(), kind, ChangeSet(id, true));
      hide Ordered, Changed;
      SetTwice(setsOrder, kind, [], []);
      assert setsOrder.Get(kind) + [] == setsOrder.Get(kind);
      if id in sets {
        if sets[id].archived && id !in localRemoved {
          ChangeStickerSet(kind, id, true);
          sent := true;
        }
        setsOrder := setsOrder.Set(kind, setsOrder.Get(kind) + [id]);
        var installed := InstallFlags(sets[id], sent, now);
        sets := sets[id := installed];
      }
    }

    // What holds once the sets of a list have been installed.
    ghost predicate Installed(
      kind: StickersType, start: State, had: Table, hadRecent: seq<Recent>, hadOrder: PerType<seq<SetId>>,
      order: seq<SetId>, removed: seq<SetId>, now: int, writeArchived: bool)
      requires start.current.Get(kind).Some?
      reads this
    {
      && current.Get(kind).Some?
      && sets == AfterInstalls(had, order, removed, now) && recent == hadRecent
      && setsOrder == hadOrder.Set(kind, Present(order, had))
      && View() == Ordered(start, kind, InstallRequests(had, order, removed, now))
      && (writeArchived <==> InstallRequests(had, order, removed, now) != [])
    }

    lemma NothingInstalledYet(kind: StickersType, hadOrder: PerType<seq<SetId>>, removed: seq<SetId>, now: int)
      requires current.Get(kind).Some? && setsOrder == hadOrder.Set(kind, [])
      ensures Installed(kind, View(), sets, recent, hadOrder, [], removed, now, false)
    {
      NothingInstalled(sets, removed, now);
      OneOrder(View(), kind, ClearRecentStickers(false));
      assert InstallRequests(sets, [], removed, now) == [] && Present([], sets) == [];
    }

    method InstallNext(
      kind: StickersType, id: SetId, removed: seq<SetId>, now: int, ghost start: State, ghost had: Table,
      ghost hadRecent: seq<Recent>, ghost hadOrder: PerType<seq<SetId>>, ghost done: seq<SetId>, wasArchived: bool)
      returns (writeArchived: bool)
      requires start.current.Get(kind).Some?
      requires Installed(kind, start, had, hadRecent, hadOrder, done, removed, now, wasArchived)
      modifies this
      ensures Installed(kind, start, had, hadRecent, hadOrder, done + [id], removed, now, writeArchived)
    {
      InstallStep(start, kind, had, done, removed, now, id);
      SetTwice(hadOrder, kind, Present(done, had), Present(done + [id], had));
      hide View, Ordered, AfterInstalls, Present, InstallRequests, InstallRequest, OneInstalled;
      writeArchived := InstallOne(kind, id, removed, now);
      writeArchived := wasArchived || writeArchived;
    }

    method InstallSets(kind: StickersType, localOrder: seq<SetId>, localRemoved: seq<SetId>, now: int)
      returns (writeArchived: bool)
      requires current.Get(kind).Some?
      modifies this
      ensures Installed(kind, old(View()), old(sets), old(recent), old(setsOrder), localOrder, localRemoved, now, writeArchived)
    {
      writeArchived := false;
      ghost var start, had, hadRecent, hadOrder := View(), sets, recent, setsOrder;
      setsOrder := setsOrder.Set(kind, []);
      NothingInstalledYet(kind, hadOrder, localRemoved, now);
      assert start.current.Get(kind).Some? && View() == start;
      hide *;
      var i := 0;
      assert localOrder[..0] == [];
      while i < |localOrder|
        invariant 0 <= i <= |localOrder|
        invariant Installed(kind, start, had, hadRecent, hadOrder, localOrder[..i], localRemoved, now, writeArchived)
      {
        assert localOrder[..i + 1] == localOrder[..i] + [localOrder[i]];
        writeArchived := InstallNext(
          kind, localOrder[i], localRemoved, now, start, had, hadRecent, hadOrder, localOrder[..i], writeArchived);
        i := i + 1;
      }
      assert localOrder[..i] == localOrder;
    }

    method FinishSave(kind: StickersType)
      requires current.Get(kind).Some?
      modifies this
      ensures View() == Finished(old(View()), kind) && Stored() == old(Stored())
    {
      if setDisenableRequests.Get(kind) == {} {
        SaveOrder(kind, current.Get(kind).value);
      }
    }

    // The table, the order, the recent stickers and the requests after a save; the flags say
    // what has to be written to the storage.
    method SaveStickerSets(localOrder: seq<SetId>, localRemoved: seq<SetId>, kind: StickersType, now: int)
      returns (writeRecent: bool, writeArchived: bool, writeCloudRecent: bool, writeCloudRecentAttached: bool)
      modifies this
      ensures sets == Saved(old(sets), localOrder, localRemoved, kind, now)
      ensures setsOrder == old(setsOrder).Set(kind, Present(localOrder, sets))
      ensures recent == SavedRecent(old(recent), old(sets), localRemoved)
      ensures View() == SaveDone(old(View()), kind, localOrder, Requests(old(sets), localOrder, localRemoved, kind, now))
      ensures writeRecent <==> recent != old(recent)
      ensures writeCloudRecent <==> ClearsRecent(localRemoved) && CLOUD_RECENT_SET_ID in old(sets)
      ensures writeCloudRecentAttached <==> ClearsRecent(localRemoved) && CLOUD_RECENT_ATTACHED_SET_ID in old(sets)
      ensures writeArchived <==>
              exists id :: id in localOrder && InstallsAgain(old(sets), localRemoved, id)
    {
      ghost var orders := setsOrder;
      OrderSurvivesPruning(sets, localOrder, localRemoved, kind, now);
      SomeInstallRequested(sets, localOrder, localRemoved, kind, now);
      hide Begun, Ordered, Erased, SameElsewhere, AfterRemovals, AfterClearing, AfterInstalls, AfterPruning, SavedRecent, ClearsRecent;
      hide InstallRequests, RemovalRequests, InstallsAgain, Present, Finished;
      CancelPending(kind, localOrder);
      writeRecent, writeCloudRecent, writeCloudRecentAttached := RemoveSets(kind, localRemoved);
      ErasedMeans(old(recent), recent, writeRecent);
      sets := ClearInstalled(sets, kind);
      SetAgain(orders, setsOrder, kind, Present(localOrder, sets));
      ghost var removals := RemovalRequests(old(sets), localRemoved);
      OrderedTogether(Begun(old(View()), kind, localOrder), kind, removals,
                      InstallRequests(sets, localOrder, localRemoved, now));
      writeArchived := InstallSets(kind, localOrder, localRemoved, now);
      sets := Prune(sets);
      FinishSave(kind);
    }

    method ChangeCompleted(id: RequestId)
      requires id in inFlight && inFlight[id].Change?
      modifies this
      ensures View() == Done(old(View()), id) && Stored() == old(Stored())
    {
      var kind, save := inFlight[id].kind, inFlight[id].save;
      inFlight, log := inFlight - {id}, log + [Completed(id)];
      setDisenableRequests := setDisenableRequests.Set(kind, setDisenableRequests.Get(kind) - {id});
      assert View() == ChangeTaken(old(View()), id);
      hide OrderSaved, ChangeTaken;
      if setDisenableRequests.Get(kind) == {} {
        SaveOrder(kind, save);
      }
    }

    // The sender reports that a request is done or has failed.  After a failed reorder the
    // sets of its type have to be loaded again.
    method OnCompleted(id: RequestId, failed: bool) returns (reload: bool)
      requires id in inFlight
      modifies this
      ensures View() == Done(old(View()), id) && Stored() == old(Stored())
      ensures reload == (failed && old(inFlight)[id].Reorder?)
    {
      reload := false;
      var request := inFlight[id];
      if request.Change? {
        ChangeCompleted(id);
        return;
      }
      inFlight, log := inFlight - {id}, log + [Completed(id)];
      if request.Reorder? {
        reorderRequestId := reorderRequestId.Set(request.kind, 0);
        reload := failed;
      } else if request.attached {
        stickersClearRecentAttachedRequestId := 0;
      } else {
        stickersClearRecentRequestId := 0;
      }
    }
  }
}
