// What every run of sticker-set saves keeps.
module StickerRuns {
  import opened Wrappers
  import opened StickerTable
  import opened StickerProtocol

  // ----- places in the log -----

  ghost predicate ReorderAt(log: seq<Entry>, p: int, kind: StickersType, save: nat) {
    0 <= p < |log| && log[p].Sent? && log[p].request.Reorder?
    && log[p].request.kind == kind && log[p].request.save == save
  }

  ghost predicate OrderAt(log: seq<Entry>, p: int, order: seq<SetId>) {
    0 <= p < |log| && log[p].Sent? && log[p].request.Reorder? && log[p].request.order == order
  }

  ghost predicate ChangeAt(log: seq<Entry>, q: int, id: RequestId, kind: StickersType, save: nat) {
    0 <= q < |log| && log[q].Sent? && log[q].id == id && log[q].request.Change?
    && log[q].request.kind == kind && log[q].request.save == save
  }

  ghost predicate StartedAt(log: seq<Entry>, q: int, kind: StickersType, save: nat) {
    0 <= q < |log| && log[q] == Started(kind, save)
  }

  ghost predicate CompletedBetween(log: seq<Entry>, q: int, p: int, id: RequestId) {
    exists r :: 0 <= q < r < p <= |log| && log[r] == Completed(id)
  }

  ghost predicate ReorderSent(log: seq<Entry>, kind: StickersType, save: nat) {
    exists p :: ReorderAt(log, p, kind, save)
  }

  // ----- the invariant -----

  ghost predicate IsChange(inFlight: map<RequestId, Request>, id: RequestId, kind: StickersType) {
    id in inFlight && inFlight[id].Change? && inFlight[id].kind == kind
  }

  // The pending ids are the changes in flight, all of the current save of their type, and a
  // reorder in flight is the remembered one.
  ghost predicate Ids(s: State) {
    FreshIds(s) && PendingIds(s) && CurrentChanges(s) && ReorderIds(s) && ReorderLive(s) && ClearIds(s)
  }

  ghost predicate FreshIds(s: State) {
    s.nextId > 0 && forall id :: id in s.inFlight ==> 0 < id < s.nextId
  }

  ghost predicate PendingIds(s: State) {
    && (forall kind: StickersType, id :: id in s.pending.Get(kind) ==> IsChange(s.inFlight, id, kind))
    && (forall kind: StickersType, id :: IsChange(s.inFlight, id, kind) ==> id in s.pending.Get(kind))
  }

  ghost predicate CurrentChanges(s: State) {
    forall id :: id in s.inFlight && s.inFlight[id].Change? ==>
      s.current.Get(s.inFlight[id].kind) == Some(s.inFlight[id].save)
  }

  ghost predicate ReorderIds(s: State) {
    forall id :: id in s.inFlight && s.inFlight[id].Reorder? ==>
      && s.reorderId.Get(s.inFlight[id].kind) == id
      && s.current.Get(s.inFlight[id].kind) == Some(s.inFlight[id].save)
      && ReorderSent(s.log, s.inFlight[id].kind, s.inFlight[id].save)
  }

  ghost predicate ReorderLive(s: State) {
    forall kind: StickersType :: s.reorderId.Get(kind) != 0 ==>
      var id := s.reorderId.Get(kind);
      id in s.inFlight && s.inFlight[id].Reorder? && s.inFlight[id].kind == kind
  }

  ghost predicate ClearIds(s: State) {
    && (s.clearRecentId != 0 ==>
          s.clearRecentId in s.inFlight && s.inFlight[s.clearRecentId] == ClearRecent(false))
    && (s.clearRecentAttachedId != 0 ==>
          s.clearRecentAttachedId in s.inFlight && s.inFlight[s.clearRecentAttachedId] == ClearRecent(true))
  }

  // A number belongs to one type, and no entry has a number above the current one of its type.
  ghost predicate UpTo(s: State, kind: StickersType, save: nat) {
    s.current.Get(kind).Some? && save <= s.current.Get(kind).value
  }

  ghost predicate Numbers(s: State) {
    && (forall kind: StickersType :: s.current.Get(kind).Some? ==> s.current.Get(kind).value < |s.orders|)
    && (forall kind: StickersType, other: StickersType ::
          kind != other && s.current.Get(kind).Some? ==> s.current.Get(kind) != s.current.Get(other))
    && (forall q, kind: StickersType, save: nat :: StartedAt(s.log, q, kind, save) ==> UpTo(s, kind, save))
    && (forall q, id, kind: StickersType, save: nat :: ChangeAt(s.log, q, id, kind, save) ==> UpTo(s, kind, save))
    && (forall kind: StickersType, save: nat :: ReorderSent(s.log, kind, save) ==> UpTo(s, kind, save))
  }

  // Every change of a current save is pending or has completed.
  ghost predicate Changes(s: State) {
    forall q, id, kind: StickersType, save: nat ::
      ChangeAt(s.log, q, id, kind, save) && s.current.Get(kind) == Some(save) ==>
      id in s.pending.Get(kind) || CompletedBetween(s.log, q, |s.log|, id)
  }

  // A current save whose reorder is sent has nothing pending and is not being made.
  ghost predicate Quiet(s: State, busy: set<StickersType>) {
    forall kind: StickersType, save: nat ::
      ReorderSent(s.log, kind, save) && s.current.Get(kind) == Some(save) ==>
      s.pending.Get(kind) == {} && kind !in busy
  }

  // The promises about the order of requests.
  ghost predicate ReorderLast(s: State) {
    && (forall p, kind: StickersType, save: nat :: ReorderAt(s.log, p, kind, save) ==>
          OrderAt(s.log, p, OrderOf(s, save)) && |OrderOf(s, save)| >= 2)
    && (forall p, q, kind: StickersType, save: nat ::
          ReorderAt(s.log, p, kind, save) && ReorderAt(s.log, q, kind, save) ==> p == q)
    && (forall p, q, id, kind: StickersType, save: nat ::
          ReorderAt(s.log, p, kind, save) && ChangeAt(s.log, q, id, kind, save) ==> CompletedBetween(s.log, q, p, id))
    && (forall p, q, kind: StickersType, save: nat, newer: nat ::
          ReorderAt(s.log, p, kind, save) && StartedAt(s.log, q, kind, newer) && newer > save ==> q > p)
  }

  // The order of a current save with nothing left pending has been sent, if it has two ids.
  ghost predicate OrdersSent(s: State, busy: set<StickersType>) {
    forall kind: StickersType ::
      s.current.Get(kind).Some? && kind !in busy && s.pending.Get(kind) == {}
      && |OrderOf(s, s.current.Get(kind).value)| >= 2 ==>
      ReorderSent(s.log, kind, s.current.Get(kind).value)
  }

  ghost predicate Invariant(s: State, busy: set<StickersType>) {
    Ids(s) && Numbers(s) && Changes(s) && Quiet(s, busy) && ReorderLast(s) && OrdersSent(s, busy)
  }

  // ----- appending to the log -----

  lemma Appended(log: seq<Entry>, e: Entry)
    ensures var more := log + [e];
            && (forall p, kind: StickersType, save: nat :: ReorderAt(more, p, kind, save) <==>
                  ReorderAt(log, p, kind, save) ||
                  (p == |log| && e.Sent? && e.request.Reorder? && e.request.kind == kind && e.request.save == save))
            && (forall q, id, kind: StickersType, save: nat :: ChangeAt(more, q, id, kind, save) <==>
                  ChangeAt(log, q, id, kind, save) ||
                  (q == |log| && e.Sent? && e.id == id && e.request.Change? && e.request.kind == kind && e.request.save == save))
            && (forall q, kind: StickersType, save: nat :: StartedAt(more, q, kind, save) <==>
                  StartedAt(log, q, kind, save) || (q == |log| && e == Started(kind, save)))
            && (forall p, order :: OrderAt(log, p, order) ==> OrderAt(more, p, order))
            && (e.Sent? && e.request.Reorder? ==> OrderAt(more, |log|, e.request.order))
            && (forall p, kind: StickersType, save: nat :: ReorderAt(log, p, kind, save) ==> 0 <= p < |log|)
            && (forall q, id, kind: StickersType, save: nat :: ChangeAt(log, q, id, kind, save) ==> 0 <= q < |log|)
            && (forall q, kind: StickersType, save: nat :: StartedAt(log, q, kind, save) ==> 0 <= q < |log|)
            && (forall q, p, id :: CompletedBetween(log, q, p, id) ==> CompletedBetween(more, q, p, id))
            && (forall q, id :: CompletedBetween(log, q, |log|, id) || (0 <= q < |log| && e == Completed(id)) ==>
                  CompletedBetween(more, q, |more|, id))
            && (forall p, kind: StickersType, save: nat :: ReorderAt(log, p, kind, save) ==> ReorderSent(log, kind, save))
            && (forall kind: StickersType, save: nat :: ReorderSent(more, kind, save) <==>
                  ReorderSent(log, kind, save) ||
                  (e.Sent? && e.request.Reorder? && e.request.kind == kind && e.request.save == save))
  {
    var more := log + [e];
    forall q, p, id | CompletedBetween(log, q, p, id) ensures CompletedBetween(more, q, p, id) {
      var r :| 0 <= q < r < p <= |log| && log[r] == Completed(id);
      assert more[r] == Completed(id);
    }
    forall q, id | CompletedBetween(log, q, |log|, id) || (0 <= q < |log| && e == Completed(id))
      ensures CompletedBetween(more, q, |more|, id)
    {
      if e == Completed(id) && 0 <= q < |log| {
        assert more[|log|] == Completed(id);
      } else {
        var r :| 0 <= q < r < |log| && log[r] == Completed(id);
        assert more[r] == Completed(id);
      }
    }
    forall kind: StickersType, save: nat | ReorderSent(log, kind, save) ensures ReorderSent(more, kind, save) {
      var p :| ReorderAt(log, p, kind, save);
      assert ReorderAt(more, p, kind, save);
    }
    if e.Sent? && e.request.Reorder? {
      assert ReorderAt(more, |log|, e.request.kind, e.request.save);
    }
    forall kind: StickersType, save: nat | ReorderSent(more, kind, save)
      ensures ReorderSent(log, kind, save) || (e.Sent? && e.request.Reorder? && e.request.kind == kind && e.request.save == save)
    {
      var p :| ReorderAt(more, p, kind, save);
      if p < |log| {
        assert ReorderAt(log, p, kind, save);
      }
    }
  }

  // ----- every step keeps the invariant -----

  // Cancelling the ids of this type leaves only requests of other types.
  lemma BegunChanges(s: State, kind: StickersType, order: seq<SetId>)
    requires Ids(s)
    ensures var t := Begun(s, kind, order); FreshIds(t) && PendingIds(t) && CurrentChanges(t)
  {
    hide ReorderSent;
  }

  lemma BegunReorders(s: State, kind: StickersType, order: seq<SetId>)
    requires Ids(s)
    ensures var t := Begun(s, kind, order); ReorderIds(t) && ReorderLive(t) && ClearIds(t)
  {
    Appended(s.log, Started(kind, |s.orders|));
    hide OrderAt, ReorderAt, ChangeAt, StartedAt, CompletedBetween, ReorderSent, CurrentChanges, IsChange;
  }

  lemma BegunIds(s: State, kind: StickersType, order: seq<SetId>)
    requires Invariant(s, {})
    ensures Ids(Begun(s, kind, order))
  {
    BegunChanges(s, kind, order);
    BegunReorders(s, kind, order);
    hide FreshIds, PendingIds, CurrentChanges, ReorderIds, ReorderLive, ClearIds, Begun;
  }

  lemma BegunKeeps(s: State, kind: StickersType, order: seq<SetId>)
    requires Invariant(s, {})
    ensures Invariant(Begun(s, kind, order), {kind})
  {
    hide OrderAt, ReorderAt, ChangeAt, StartedAt, CompletedBetween, ReorderSent, Ids;
    Appended(s.log, Started(kind, |s.orders|));
    BegunIds(s, kind, order);
  }

  lemma ChangedIds(s: State, kind: StickersType, setId: SetId, install: bool)
    requires Invariant(s, {kind}) && s.current.Get(kind).Some?
    ensures Ids(Changed(s, kind, setId, install))
  {
    hide OrderAt, ReorderAt, ChangeAt, StartedAt, CompletedBetween, ReorderSent;
    Appended(s.log, Sent(s.nextId, Change(kind, s.current.Get(kind).value, setId, install)));
  }

  lemma ChangedKeeps(s: State, kind: StickersType, setId: SetId, install: bool)
    requires Invariant(s, {kind}) && s.current.Get(kind).Some?
    ensures Invariant(Changed(s, kind, setId, install), {kind})
  {
    hide OrderAt, ReorderAt, ChangeAt, StartedAt, CompletedBetween, ReorderSent, Ids;
    Appended(s.log, Sent(s.nextId, Change(kind, s.current.Get(kind).value, setId, install)));
    ChangedIds(s, kind, setId, install);
  }

  lemma RecentClearedIds(s: State, attached: bool, busy: set<StickersType>)
    requires Invariant(s, busy)
    ensures Ids(RecentCleared(s, attached))
  {
    hide OrderAt, ReorderAt, ChangeAt, StartedAt, CompletedBetween, ReorderSent;
    Appended(s.log, Sent(s.nextId, ClearRecent(attached)));
  }

  lemma RecentClearedKeeps(s: State, attached: bool, busy: set<StickersType>)
    requires Invariant(s, busy)
    ensures Invariant(RecentCleared(s, attached), busy)
  {
    hide OrderAt, ReorderAt, ChangeAt, StartedAt, CompletedBetween, ReorderSent, Ids;
    Appended(s.log, Sent(s.nextId, ClearRecent(attached)));
    RecentClearedIds(s, attached, busy);
  }

  lemma OrderSavedIds(s: State, kind: StickersType, save: nat)
    requires Invariant(s, {kind})
    requires s.current.Get(kind) == Some(save) && s.pending.Get(kind) == {}
    ensures Ids(OrderSaved(s, kind, save))
  {
    hide OrderAt, ReorderAt, ChangeAt, StartedAt, CompletedBetween, ReorderSent;
    Appended(s.log, Sent(s.nextId, Reorder(kind, save, OrderOf(s, save))));
  }

  lemma OrderSavedKeeps(s: State, kind: StickersType, save: nat)
    requires Invariant(s, {kind})
    requires s.current.Get(kind) == Some(save) && s.pending.Get(kind) == {}
    ensures Invariant(OrderSaved(s, kind, save), {})
  {
    hide OrderAt, ReorderAt, ChangeAt, StartedAt, CompletedBetween, ReorderSent, Ids;
    Appended(s.log, Sent(s.nextId, Reorder(kind, save, OrderOf(s, save))));
    OrderSavedIds(s, kind, save);
  }

  lemma ChangeTakenIds(s: State, id: RequestId)
    requires Invariant(s, {}) && id in s.inFlight && s.inFlight[id].Change?
    ensures Ids(ChangeTaken(s, id))
  {
    hide OrderAt, ReorderAt, ChangeAt, StartedAt, CompletedBetween, ReorderSent;
    Appended(s.log, Completed(id));
  }

  lemma TakenWasPending(s: State, id: RequestId)
    requires Ids(s) && id in s.inFlight && s.inFlight[id].Change?
    ensures id in s.pending.Get(s.inFlight[id].kind)
  {
    assert IsChange(s.inFlight, id, s.inFlight[id].kind);
  }

  lemma ChangeTakenChanges(s: State, id: RequestId)
    requires Invariant(s, {}) && id in s.inFlight && s.inFlight[id].Change?
    ensures Changes(ChangeTaken(s, id))
  {
    hide OrderAt, ReorderAt, StartedAt, CompletedBetween, ReorderSent, Ids, Numbers, Quiet, ReorderLast, OrdersSent;
    Appended(s.log, Completed(id));
  }

  lemma ChangeTakenOrder(s: State, id: RequestId)
    requires Invariant(s, {}) && id in s.inFlight && s.inFlight[id].Change?
    ensures ReorderLast(ChangeTaken(s, id))
  {
    hide OrderAt, ReorderAt, ChangeAt, StartedAt, CompletedBetween, ReorderSent, Ids, Changes, Quiet, OrdersSent;
    Appended(s.log, Completed(id));
  }

  lemma ChangeTakenNumbers(s: State, id: RequestId)
    requires Invariant(s, {}) && id in s.inFlight && s.inFlight[id].Change?
    ensures Numbers(ChangeTaken(s, id))
  {
    hide OrderAt, ReorderAt, ChangeAt, StartedAt, CompletedBetween, ReorderSent, Ids, Changes, Quiet, ReorderLast, OrdersSent;
    Appended(s.log, Completed(id));
  }

  // No reorder has been sent for a current save that has a change in flight.
  lemma ChangeTakenQuiet(s: State, id: RequestId)
    requires Invariant(s, {}) && id in s.inFlight && s.inFlight[id].Change?
    ensures Quiet(ChangeTaken(s, id), {s.inFlight[id].kind})
  {
    TakenWasPending(s, id);
    hide OrderAt, ReorderAt, ChangeAt, StartedAt, CompletedBetween, ReorderSent, Ids, Changes, ReorderLast, Numbers, OrdersSent;
    Appended(s.log, Completed(id));
  }

  lemma ChangeTakenKeeps(s: State, id: RequestId)
    requires Invariant(s, {}) && id in s.inFlight && s.inFlight[id].Change?
    ensures var t, kind := ChangeTaken(s, id), s.inFlight[id].kind;
            Invariant(t, {kind}) && (t.pending.Get(kind) != {} ==> Invariant(t, {}))
  {
    assert OrdersSent(ChangeTaken(s, id), {s.inFlight[id].kind}) && Quiet(s, {}) by {
      hide OrderAt, ReorderAt, ChangeAt, StartedAt, CompletedBetween, ReorderSent, Ids, Changes, ReorderLast, Numbers, Quiet;
      Appended(s.log, Completed(id));
    }
    ChangeTakenQuiet(s, id);
    assert ChangeTaken(s, id).pending.Get(s.inFlight[id].kind) != {} ==>
           Quiet(ChangeTaken(s, id), {}) && OrdersSent(ChangeTaken(s, id), {}) by {
      hide ReorderSent, Ids, Changes, ReorderLast, Numbers;
    }
    hide Ids, Changes, ReorderLast, Numbers, Quiet, OrdersSent;
    ChangeTakenIds(s, id);
    ChangeTakenNumbers(s, id);
    ChangeTakenChanges(s, id);
    ChangeTakenOrder(s, id);
  }

  lemma ReorderDoneIds(s: State, id: RequestId)
    requires Ids(s) && id in s.inFlight && s.inFlight[id].Reorder?
    ensures Ids(Done(s, id))
  {
    Appended(s.log, Completed(id));
    hide OrderAt, ReorderAt, ChangeAt, StartedAt, CompletedBetween, ReorderSent;
  }

  lemma ClearDoneIds(s: State, id: RequestId)
    requires Ids(s) && id in s.inFlight && s.inFlight[id].ClearRecent?
    ensures Ids(Done(s, id))
  {
    Appended(s.log, Completed(id));
    hide OrderAt, ReorderAt, ChangeAt, StartedAt, CompletedBetween, ReorderSent;
  }

  lemma OtherDoneIds(s: State, id: RequestId)
    requires Invariant(s, {}) && id in s.inFlight && !s.inFlight[id].Change?
    ensures Ids(Done(s, id))
  {
    hide Ids, Done;
    if s.inFlight[id].Reorder? {
      ReorderDoneIds(s, id);
    } else {
      ClearDoneIds(s, id);
    }
  }

  lemma OtherDoneKeeps(s: State, id: RequestId)
    requires Invariant(s, {}) && id in s.inFlight && !s.inFlight[id].Change?
    ensures Invariant(Done(s, id), {})
  {
    hide OrderAt, ReorderAt, ChangeAt, StartedAt, CompletedBetween, ReorderSent, Ids;
    Appended(s.log, Completed(id));
    OtherDoneIds(s, id);
  }

  lemma {:induction false} OrderedKeeps(s: State, kind: StickersType, orders: seq<Order>)
    requires Invariant(s, {kind}) && s.current.Get(kind).Some?
    ensures Invariant(Ordered(s, kind, orders), {kind})
    decreases |orders|
  {
    hide Invariant, Changed, RecentCleared;
    if orders != [] {
      var n := |orders| - 1;
      var t := Ordered(s, kind, orders[..n]);
      OrderedKeeps(s, kind, orders[..n]);
      match orders[n]
      case ChangeSet(setId, install) => ChangedKeeps(t, kind, setId, install);
      case ClearRecentStickers(attached) => RecentClearedKeeps(t, attached, {kind});
    }
  }

  lemma FinishedKeeps(s: State, kind: StickersType)
    requires Invariant(s, {kind}) && s.current.Get(kind).Some?
    ensures Invariant(Finished(s, kind), {})
  {
    if s.pending.Get(kind) == {} {
      hide Invariant, OrderSaved;
      OrderSavedKeeps(s, kind, s.current.Get(kind).value);
    }
  }

  lemma DoneKeeps(s: State, id: RequestId)
    requires Invariant(s, {}) && id in s.inFlight
    ensures Invariant(Done(s, id), {})
  {
    if s.inFlight[id].Change? {
      var kind, save, t := s.inFlight[id].kind, s.inFlight[id].save, ChangeTaken(s, id);
      assert t.current.Get(kind) == Some(save);
      hide Invariant, OrderSaved, ChangeTaken;
      ChangeTakenKeeps(s, id);
      if t.pending.Get(kind) == {} {
        OrderSavedKeeps(t, kind, save);
      }
    } else {
      OtherDoneKeeps(s, id);
    }
  }

  lemma StepKeeps(s: State, e: Event)
    requires Invariant(s, {})
    ensures Invariant(Step(s, e), {})
  {
    hide Invariant, Begun, Finished, Done, Ordered;
    if Enabled(s, e) {
      match e
      case Save(kind, order, orders) =>
        assert Begun(s, kind, order).current.Get(kind).Some? by {
          CurrentAfterBegun(s, kind, order);
        }
        BegunKeeps(s, kind, order);
        OrderedKeeps(Begun(s, kind, order), kind, orders);
        FinishedKeeps(Ordered(Begun(s, kind, order), kind, orders), kind);
      case Complete(id) => DoneKeeps(s, id);
    }
  }

  lemma CurrentAfterBegun(s: State, kind: StickersType, order: seq<SetId>)
    ensures Begun(s, kind, order).current.Get(kind) == Some(|s.orders|)
  {
  }

  lemma {:induction false} RunKeeps(events: seq<Event>)
    ensures Invariant(Run(events), {})
    decreases |events|
  {
    if events != [] {
      hide Invariant, Step;
      RunKeeps(events[..|events| - 1]);
      StepKeeps(Run(events[..|events| - 1]), events[|events| - 1]);
    }
  }

  // In every run a save sends its reorder at most once, with its own local order of at least
  // two ids, after every change of that save has completed, and not after a newer save of
  // the type has started.
  lemma ReorderComesLast(events: seq<Event>, p: int, kind: StickersType, save: nat)
    requires ReorderAt(Run(events).log, p, kind, save)
    ensures var s := Run(events);
            && s.log[p].request.order == OrderOf(s, save) && |OrderOf(s, save)| >= 2
            && (forall q :: ReorderAt(s.log, q, kind, save) ==> q == p)
            && (forall q, id :: ChangeAt(s.log, q, id, kind, save) ==> CompletedBetween(s.log, q, p, id))
            && (forall q, newer: nat :: StartedAt(s.log, q, kind, newer) && newer > save ==> q > p)
  {
    RunKeeps(events);
    var s := Run(events);
    assert OrderAt(s.log, p, OrderOf(s, save));
  }

  // In every run the reorder of the latest save of a type has been sent exactly when none of
  // its changes is pending and it has at least two ids.
  lemma ReorderSentExactlyWhenDone(events: seq<Event>, kind: StickersType)
    requires Run(events).current.Get(kind).Some?
    ensures var s := Run(events);
            var save := s.current.Get(kind).value;
            ReorderSent(s.log, kind, save) <==> s.pending.Get(kind) == {} && |OrderOf(s, save)| >= 2
  {
    RunKeeps(events);
    var s := Run(events);
    var save := s.current.Get(kind).value;
    if ReorderSent(s.log, kind, save) {
      var p :| ReorderAt(s.log, p, kind, save);
    }
  }

  // In every run whatever is in flight for a type belongs to its latest save: a newer save
  // has cancelled the requests of the older ones.
  lemma OlderSavesCancelled(events: seq<Event>, id: RequestId)
    requires id in Run(events).inFlight && !Run(events).inFlight[id].ClearRecent?
    ensures var s := Run(events);
            && s.current.Get(s.inFlight[id].kind) == Some(s.inFlight[id].save)
            && (s.inFlight[id].Change? ==> id in s.pending.Get(s.inFlight[id].kind))
            && (s.inFlight[id].Reorder? ==> id == s.reorderId.Get(s.inFlight[id].kind))
  {
    RunKeeps(events);
    var s := Run(events);
    if s.inFlight[id].Change? {
      assert IsChange(s.inFlight, id, s.inFlight[id].kind);
    }
  }
}
