// What every run of the invite-link cache keeps.
module InviteRuns {
  import opened Wrappers
  import opened InviteList
  import opened InviteProtocol

  // ----- requests coalesce -----

  ghost predicate InFlightFor(s: State, slot: Slot) {
    exists id :: id in s.inFlight && s.inFlight[id].Slot() == slot
  }

  // Requests queue behind one another when they create for one peer, edit or revoke one
  // link, delete one link, delete for one peer whatever the admin, or ask for one first page.
  lemma SlotsShared(a: Request, b: Request)
    ensures a.Slot() == b.Slot() <==>
            || (a.Create? && b.Create? && a.peer == b.peer)
            || ((a.Edit? || a.Revoke?) && (b.Edit? || b.Revoke?) && a.key == b.key)
            || (a.Delete? && b.Delete? && a.key == b.key)
            || (a.DeleteRevoked? && b.DeleteRevoked? && a.peer == b.peer)
            || (a.FirstPage? && b.FirstPage? && a.peer == b.peer)
  {
  }

  // Every request in flight has its key, no two requests share one, and no key is without
  // its request.
  ghost predicate Coalescing(s: State) {
    && (forall id :: id in s.inFlight ==> id < s.nextId && s.inFlight[id].Slot() in s.queues)
    && (forall i, j :: i in s.inFlight && j in s.inFlight && s.inFlight[i].Slot() == s.inFlight[j].Slot() ==> i == j)
    && (forall slot: Slot :: slot in s.queues && !slot.DeleteRevokedSlot? ==> InFlightFor(s, slot))
  }

  // The key of a failed deletion of all revoked links: it has no request.
  ghost predicate Stuck(s: State, peer: Peer) {
    DeleteRevokedSlot(peer) in s.queues && !InFlightFor(s, DeleteRevokedSlot(peer))
  }

  ghost predicate NoneStuck(s: State) {
    forall peer: Peer :: !Stuck(s, peer)
  }

  // The ways in which a step touches queues and requests.
  ghost predicate SameRequests(s: State, t: State) {
    && t.inFlight == s.inFlight && t.nextId == s.nextId
    && forall slot :: slot in t.queues <==> slot in s.queues
  }

  ghost predicate Opens(s: State, t: State, request: Request) {
    && request.Slot() !in s.queues
    && t.inFlight == s.inFlight[s.nextId := request] && t.nextId == s.nextId + 1
    && forall slot :: slot in t.queues <==> (slot in s.queues || slot == request.Slot())
  }

  ghost predicate Closes(s: State, t: State, id: RequestId) {
    && id in s.inFlight
    && t.inFlight == s.inFlight - {id} && t.nextId == s.nextId
    && forall slot :: slot in t.queues <==> (slot in s.queues && slot != s.inFlight[id].Slot())
  }

  // A failed deletion of all revoked links closes its request and keeps its key.
  ghost predicate Strands(s: State, t: State, id: RequestId) {
    && id in s.inFlight && s.inFlight[id].DeleteRevoked?
    && t.inFlight == s.inFlight - {id} && t.nextId == s.nextId
    && forall slot :: slot in t.queues <==> slot in s.queues
  }

  lemma RequestKinds(s: State, request: Request, withDone: bool)
    ensures var t := Step(s, DoRequest(request, withDone));
            SameRequests(s, t) || Opens(s, t, request)
  {
  }

  // The link that an answer hands to the callbacks of its slot.
  function LinkFor(request: Request, links: seq<Link>): Option<Link>
    requires Acceptable(request, links)
  {
    if request.Create? || request.Edit? || request.Revoke? then Some(links[0]) else None
  }

  // Nothing but a slice differs.
  ghost predicate SameButSlices(s: State, t: State) {
    t == s.(slices := t.slices)
  }

  lemma SliceChanges(s: State, key: LinkKey, link: Link)
    ensures SameButSlices(s, LinkEdited(s, key, link))
    ensures SameButSlices(s, LinkPrepended(s, key.peer, link))
    ensures SameButSlices(LinkEdited(s, key, link), LinkPrepended(LinkEdited(s, key, link), key.peer, link))
  {
    hide Edited, Prepended;
  }

  // What an answer does to requests and callbacks, whatever it does to the slices.
  lemma AnswerShape(s: State, id: RequestId, links: seq<Link>, total: int)
    requires Enabled(s, Answer(id, links, total))
    ensures var t := Answered(s, id, links, total);
            var request := s.inFlight[id];
            var slot := request.Slot();
            && t.inFlight == s.inFlight - {id} && t.nextId == s.nextId && t.issued == s.issued
            && t.queues == s.queues - {slot}
            && t.called ==
               if slot in s.queues && !request.FirstPage? then s.called + Calls(s.queues[slot], LinkFor(request, links))
               else s.called
  {
    var request := s.inFlight[id];
    var slot, taken := request.Slot(), s.(inFlight := s.inFlight - {id});
    assert slot !in s.queues ==> s.queues - {slot} == s.queues;
    if request.FirstPage? {
      hide Merged;
    } else {
      var f := Finished(taken, slot, LinkFor(request, links));
      AnswerFinishes(s, id, links, total);
      hide Answered, LinkFor, Request.Slot, Calls;
    }
  }

  lemma AnswerFinishes(s: State, id: RequestId, links: seq<Link>, total: int)
    requires Enabled(s, Answer(id, links, total)) && !s.inFlight[id].FirstPage?
    ensures var request := s.inFlight[id];
            SameButSlices(Finished(s.(inFlight := s.inFlight - {id}), request.Slot(), LinkFor(request, links)),
                          Answered(s, id, links, total))
  {
    var request := s.inFlight[id];
    var f := Finished(s.(inFlight := s.inFlight - {id}), request.Slot(), LinkFor(request, links));
    hide Finished, LinkEdited, LinkPrepended;
    if request.Create? || request.Edit? || request.Revoke? {
      var key := if request.Create? then LinkKey(request.peer, "") else request.key;
      SliceChanges(f, key, links[0]);
      SliceChanges(LinkEdited(f, key, links[0]), key, links[|links| - 1]);
    }
  }

  lemma AnswerKinds(s: State, id: RequestId, links: seq<Link>, total: int)
    requires Enabled(s, Answer(id, links, total))
    ensures Closes(s, Answered(s, id, links, total), id)
  {
    hide Answered;
    AnswerShape(s, id, links, total);
  }

  lemma FailKinds(s: State, id: RequestId)
    requires id in s.inFlight
    ensures if s.inFlight[id].DeleteRevoked? then Strands(s, Failed(s, id), id) else Closes(s, Failed(s, id), id)
  {
    var t := s.(inFlight := s.inFlight - {id});
  }

  lemma OtherKinds(s: State, e: Event)
    requires !e.DoRequest? && !e.Answer? && !e.Fail?
    ensures SameRequests(s, Step(s, e))
  {
    hide Replaced, WithPermanent, WithoutPermanent;
  }

  lemma OpenKeeps(s: State, t: State, request: Request)
    requires Coalescing(s) && Opens(s, t, request)
    ensures Coalescing(t)
    ensures NoneStuck(s) ==> NoneStuck(t)
  {
    forall slot: Slot | InFlightFor(s, slot) || slot == request.Slot()
      ensures InFlightFor(t, slot)
    {
      if slot == request.Slot() {
        assert s.nextId in t.inFlight && t.inFlight[s.nextId].Slot() == slot;
      } else {
        var id :| id in s.inFlight && s.inFlight[id].Slot() == slot;
        assert id in t.inFlight && t.inFlight[id].Slot() == slot;
      }
    }
    assert forall peer: Peer :: Stuck(t, peer) ==> Stuck(s, peer);
  }

  lemma CloseKeeps(s: State, t: State, id: RequestId)
    requires Coalescing(s) && (Closes(s, t, id) || Strands(s, t, id))
    ensures Coalescing(t)
    ensures NoneStuck(s) && Closes(s, t, id) ==> NoneStuck(t)
    ensures Strands(s, t, id) ==> !NoneStuck(t)
  {
    forall slot: Slot | InFlightFor(s, slot) && slot != s.inFlight[id].Slot()
      ensures InFlightFor(t, slot)
    {
      var other :| other in s.inFlight && s.inFlight[other].Slot() == slot;
      assert other in t.inFlight && t.inFlight[other].Slot() == slot;
    }
    if Closes(s, t, id) {
      assert forall peer: Peer :: Stuck(t, peer) ==> Stuck(s, peer);
    }
    if Strands(s, t, id) {
      assert Stuck(t, s.inFlight[id].peer);
    }
  }

  lemma StepCoalesces(s: State, e: Event)
    requires Coalescing(s)
    ensures Coalescing(Step(s, e))
    ensures NoneStuck(s) ==>
            (NoneStuck(Step(s, e)) <==>
             !(e.Fail? && e.id in s.inFlight && s.inFlight[e.id].DeleteRevoked?))
  {
    hide Answered, Failed, Requested;
    hide ExternallyUpdated, PermanentSet, PermanentCleared, Coalescing, NoneStuck;
    var t := Step(s, e);
    if !Enabled(s, e) {
    } else if e.DoRequest? {
      RequestKinds(s, e.request, e.withDone);
      if Opens(s, t, e.request) {
        OpenKeeps(s, t, e.request);
      } else {
        SameKeeps(s, t);
      }
    } else if e.Answer? {
      AnswerKinds(s, e.id, e.links, e.total);
      CloseKeeps(s, t, e.id);
    } else if e.Fail? {
      FailKinds(s, e.id);
      CloseKeeps(s, t, e.id);
    } else {
      OtherKinds(s, e);
      SameKeeps(s, t);
    }
  }

  lemma SameKeeps(s: State, t: State)
    requires Coalescing(s) && SameRequests(s, t)
    ensures Coalescing(t)
    ensures NoneStuck(s) <==> NoneStuck(t)
  {
    assert forall slot: Slot :: InFlightFor(t, slot) <==> InFlightFor(s, slot);
    assert forall peer: Peer :: Stuck(t, peer) <==> Stuck(s, peer);
  }

  // ----- callbacks -----

  // Callback c is at place i of the queue of this slot.
  ghost predicate Queued(s: State, slot: Slot, i: int, c: Callback) {
    slot in s.queues && 0 <= i < |s.queues[slot]| && s.queues[slot][i] == c
  }

  ghost predicate CalledAt(s: State, k: int, c: Callback) {
    0 <= k < |s.called| && s.called[k].callback == c
  }

  // Every callback handed in is queued at most once, or called at most once, never both.
  ghost predicate Once(s: State) {
    && (forall slot, i, c: Callback :: Queued(s, slot, i, c) ==> c < s.issued)
    && (forall slot, i, slot', j, c: Callback :: Queued(s, slot, i, c) && Queued(s, slot', j, c) ==> slot == slot' && i == j)
    && (forall k, c: Callback :: CalledAt(s, k, c) ==> c < s.issued)
    && (forall k, l, c: Callback :: CalledAt(s, k, c) && CalledAt(s, l, c) ==> k == l)
    && (forall slot, i, k, c: Callback :: Queued(s, slot, i, c) ==> !CalledAt(s, k, c))
  }

  function HandedTo(s: State, request: Request, withDone: bool): seq<Callback> {
    s.Handed(withDone && !request.FirstPage?)
  }

  // An edit or a revocation of a link that is being deleted is dropped.
  predicate Drops(s: State, request: Request) {
    (request.Edit? || request.Revoke?) && DeleteSlot(request.key) in s.queues
  }

  // What a request does to callbacks.
  lemma RequestShape(s: State, request: Request, withDone: bool)
    ensures var t, slot := Requested(s, request, withDone), request.Slot();
            && t.called == s.called
            && t.issued == s.issued + |HandedTo(s, request, withDone)|
            && t.queues == if Drops(s, request) then s.queues
                           else s.queues[slot := (if slot in s.queues then s.queues[slot] else [])
                                                 + HandedTo(s, request, withDone)]
  {
    assert forall q: seq<Callback> :: [] + q == q;
  }

  lemma RequestKeepsOnce(s: State, request: Request, withDone: bool)
    requires Once(s)
    ensures Once(Requested(s, request, withDone))
  {
    RequestShape(s, request, withDone);
    var t, slot := Requested(s, request, withDone), request.Slot();
    hide Requested, Drops, Request.Slot;
    forall other, i, c: Callback | Queued(t, other, i, c)
      ensures Queued(s, other, i, c) || (c == s.issued < t.issued && other == slot && i == |t.queues[slot]| - 1)
    {
    }
    assert forall k, c: Callback :: CalledAt(t, k, c) <==> CalledAt(s, k, c);
  }

  lemma FinishKeepsOnce(s: State, slot: Slot, link: Option<Link>)
    requires Once(s)
    ensures Once(Finished(s, slot, link))
  {
    var t := Finished(s, slot, link);
    if slot in s.queues {
      var n := |s.called|;
      forall other, i, c: Callback | Queued(t, other, i, c) ensures Queued(s, other, i, c) && other != slot {
      }
      forall k, c: Callback | CalledAt(t, k, c)
        ensures if k < n then CalledAt(s, k, c) else Queued(s, slot, k - n, c)
      {
      }
    }
  }

  // Nothing that is queued, called or counted differs.
  lemma SameCallbacks(s: State, t: State)
    requires Once(s)
    requires t.issued == s.issued && t.called == s.called
    requires forall slot :: slot in t.queues ==> slot in s.queues && t.queues[slot] == s.queues[slot]
    ensures Once(t)
  {
    assert forall slot, i, c: Callback :: Queued(t, slot, i, c) ==> Queued(s, slot, i, c);
    assert forall k, c: Callback :: CalledAt(t, k, c) <==> CalledAt(s, k, c);
  }

  lemma AnswerKeepsOnce(s: State, id: RequestId, links: seq<Link>, total: int)
    requires Once(s) && Enabled(s, Answer(id, links, total))
    ensures Once(Answered(s, id, links, total))
  {
    hide Once, Answered;
    AnswerShape(s, id, links, total);
    var request, t := s.inFlight[id], Answered(s, id, links, total);
    if request.FirstPage? {
      SameCallbacks(s, t);
    } else {
      var u := Finished(s, request.Slot(), LinkFor(request, links));
      FinishKeepsOnce(s, request.Slot(), LinkFor(request, links));
      SameCallbacks(u, t);
    }
  }

  lemma StepKeepsOnce(s: State, e: Event)
    requires Once(s)
    ensures Once(Step(s, e))
  {
    hide Once, Answered, Requested;
    if !Enabled(s, e) {
    } else if e.DoRequest? {
      RequestKeepsOnce(s, e.request, e.withDone);
    } else if e.Answer? {
      AnswerKeepsOnce(s, e.id, e.links, e.total);
    } else {
      SameCallbacks(s, Step(s, e));
    }
  }

  lemma {:induction false} RunKeeps(events: seq<Event>)
    ensures Coalescing(Run(INITIAL, events)) && Once(Run(INITIAL, events))
    decreases |events|
  {
    if events == [] {
      assert forall slot: Slot :: slot !in INITIAL.queues;
    } else {
      hide Once, Coalescing, Step;
      var n := |events| - 1;
      RunKeeps(events[..n]);
      StepCoalesces(Run(INITIAL, events[..n]), events[n]);
      StepKeepsOnce(Run(INITIAL, events[..n]), events[n]);
    }
  }

  // In every run a key is present exactly while its request is in flight, and that request
  // is the only one for it.
  lemma KeyExactlyWhileInFlight(events: seq<Event>, slot: Slot)
    requires !slot.DeleteRevokedSlot?
    ensures var s := Run(INITIAL, events);
            && (slot in s.queues <==> InFlightFor(s, slot))
            && forall i, j :: i in s.inFlight && j in s.inFlight && s.inFlight[i].Slot() == slot && s.inFlight[j].Slot() == slot ==> i == j
  {
    RunKeeps(events);
  }

  // In every run each callback is called at most once.
  lemma CalledAtMostOnce(events: seq<Event>, k: nat, l: nat)
    requires k < l < |Run(INITIAL, events).called|
    ensures Run(INITIAL, events).called[k].callback != Run(INITIAL, events).called[l].callback
  {
    RunKeeps(events);
    var s := Run(INITIAL, events);
    assert CalledAt(s, k, s.called[k].callback) && CalledAt(s, l, s.called[l].callback);
  }

  // A successful answer calls exactly the queue of its key, in queue order and with the same
  // link, or with none for a deletion; a failure calls nothing.  Either way the key is gone,
  // unless a deletion of all revoked links has failed.
  lemma AnswerCallsQueue(events: seq<Event>, id: RequestId, links: seq<Link>, total: int)
    requires var s := Run(INITIAL, events);
             Enabled(s, Answer(id, links, total)) && !s.inFlight[id].FirstPage?
    ensures var s := Run(INITIAL, events);
            var request, slot := s.inFlight[id], s.inFlight[id].Slot();
            var done, failed := Step(s, Answer(id, links, total)), Step(s, Fail(id));
            var link := if request.Delete? || request.DeleteRevoked? then None else Some(links[0]);
            && slot in s.queues && slot !in done.queues && (slot in failed.queues <==> request.DeleteRevoked?)
            && failed.called == s.called
            && |done.called| == |s.called| + |s.queues[slot]|
            && done.called[..|s.called|] == s.called
            && forall i :: 0 <= i < |s.queues[slot]| ==> done.called[|s.called| + i] == Call(s.queues[slot][i], link)
  {
    hide Answered, Once;
    RunKeeps(events);
    AnswerShape(Run(INITIAL, events), id, links, total);
  }

  // ----- lost callbacks -----

  ghost predicate Waiting(s: State, c: Callback) {
    exists slot, i :: Queued(s, slot, i, c)
  }

  ghost predicate Called(s: State, c: Callback) {
    exists k :: CalledAt(s, k, c)
  }

  // Handed in, but neither waiting nor called.
  ghost predicate Lost(s: State, c: Callback) {
    c < s.issued && !Waiting(s, c) && !Called(s, c)
  }

  // The callbacks that an event discards: that of a dropped request, and the queue of a
  // failed one that has a failure handler.
  ghost predicate Discards(s: State, e: Event, c: Callback) {
    match e
    case DoRequest(request, withDone) => withDone && c == s.issued && Drops(s, request)
    case Fail(id) =>
      id in s.inFlight && !s.inFlight[id].DeleteRevoked? && exists i :: Queued(s, s.inFlight[id].Slot(), i, c)
    case _ => false
  }

  // Who waits after a request.
  lemma RequestWaiting(s: State, request: Request, withDone: bool, c: Callback)
    ensures var t := Requested(s, request, withDone);
            Waiting(t, c) <==>
            Waiting(s, c) || (c == s.issued && withDone && !request.FirstPage? && !Drops(s, request))
  {
    RequestShape(s, request, withDone);
    var t, slot := Requested(s, request, withDone), request.Slot();
    hide Requested, Drops, Request.Slot;
    if slot', i :| Queued(s, slot', i, c) {
      assert Queued(t, slot', i, c);
    }
    if c == s.issued && withDone && !request.FirstPage? && !Drops(s, request) {
      assert Queued(t, slot, |t.queues[slot]| - 1, c);
    }
    if slot', i :| Queued(t, slot', i, c) {
      assert Queued(s, slot', i, c) || (c == s.issued && withDone && !request.FirstPage? && !Drops(s, request));
    }
  }

  lemma OnceFresh(s: State)
    requires Once(s)
    ensures !Waiting(s, s.issued) && !Called(s, s.issued)
  {
  }

  // A callback handed in with a request is lost exactly when the request is an edit or a
  // revocation of a link that is being deleted; no other callback becomes lost.
  lemma RequestLoses(s: State, request: Request, c: Callback)
    requires Once(s) && !request.FirstPage?
    ensures Lost(Requested(s, request, true), c) <==> Lost(s, c) || (c == s.issued && Drops(s, request))
  {
    OnceFresh(s);
    RequestWaiting(s, request, true, c);
    RequestRecords(s, request, true, c);
    hide Waiting, Called, Once, Drops, Requested;
  }

  lemma RequestRecords(s: State, request: Request, withDone: bool, c: Callback)
    ensures var t := Requested(s, request, withDone);
            && (Called(t, c) <==> Called(s, c))
            && t.issued == s.issued + if withDone && !request.FirstPage? then 1 else 0
  {
    RequestShape(s, request, withDone);
    hide Requested;
    assert forall k :: CalledAt(Requested(s, request, withDone), k, c) <==> CalledAt(s, k, c);
  }

  lemma SilentRequestLosesNothing(s: State, request: Request, withDone: bool, c: Callback)
    requires !withDone || request.FirstPage?
    ensures Lost(Requested(s, request, withDone), c) <==> Lost(s, c)
  {
    RequestWaiting(s, request, withDone, c);
    RequestRecords(s, request, withDone, c);
    hide Waiting, Called, Requested;
  }

  // A failure loses exactly the queue of its request.
  lemma FailureLoses(s: State, id: RequestId, c: Callback)
    requires Once(s) && id in s.inFlight
    ensures Lost(Failed(s, id), c) <==>
            Lost(s, c) || (!s.inFlight[id].DeleteRevoked? && exists i :: Queued(s, s.inFlight[id].Slot(), i, c))
  {
    var t, slot := Failed(s, id), s.inFlight[id].Slot();
    assert t.called == s.called && t.issued == s.issued;
    assert forall k :: CalledAt(t, k, c) <==> CalledAt(s, k, c);
    if s.inFlight[id].DeleteRevoked? {
      assert forall other, i :: Queued(t, other, i, c) <==> Queued(s, other, i, c);
    } else {
      assert forall other, i :: Queued(t, other, i, c) <==> Queued(s, other, i, c) && other != slot;
    }
  }

  // An answer takes its queue out and calls all of it, so it loses nothing.
  lemma AnswerLosesNothing(s: State, id: RequestId, links: seq<Link>, total: int, c: Callback)
    requires Once(s) && Enabled(s, Answer(id, links, total))
    requires s.inFlight[id].FirstPage? && s.inFlight[id].Slot() in s.queues ==> s.queues[s.inFlight[id].Slot()] == []
    ensures Lost(Answered(s, id, links, total), c) <==> Lost(s, c)
  {
    AnswerShape(s, id, links, total);
    var t, slot := Answered(s, id, links, total), s.inFlight[id].Slot();
    hide Answered, Once;
    assert forall other, i :: Queued(t, other, i, c) <==> Queued(s, other, i, c) && other != slot;
    if k :| CalledAt(s, k, c) {
      assert CalledAt(t, k, c);
    }
    if i :| Queued(s, slot, i, c) {
      assert CalledAt(t, |s.called| + i, c);
    }
    if k :| CalledAt(t, k, c) {
      assert CalledAt(s, k, c) || Queued(s, slot, k - |s.called|, c);
    }
  }

  // Nobody waits for a page.
  ghost predicate PagesSilent(s: State) {
    forall peer: Peer :: PageSlot(peer) in s.queues ==> s.queues[PageSlot(peer)] == []
  }

  lemma StepKeepsPagesSilent(s: State, e: Event)
    requires PagesSilent(s)
    ensures PagesSilent(Step(s, e))
  {
    hide Answered, Replaced, WithPermanent, WithoutPermanent;
    if e.Answer? && Enabled(s, e) {
      AnswerShape(s, e.id, e.links, e.total);
    }
  }

  // A step loses exactly what its event discards, and nothing lost comes back.
  lemma StepLoses(s: State, e: Event, c: Callback)
    requires Once(s) && PagesSilent(s)
    ensures Lost(Step(s, e), c) <==> Lost(s, c) || Discards(s, e, c)
  {
    hide Requested, Answered, Failed, Once, Lost, Drops;
    if !Enabled(s, e) {
    } else if e.DoRequest? {
      if e.withDone && !e.request.FirstPage? {
        RequestLoses(s, e.request, c);
      } else {
        SilentRequestLosesNothing(s, e.request, e.withDone, c);
        PageIsNotDropped(s, e.request);
      }
    } else if e.Answer? {
      AnswerLosesNothing(s, e.id, e.links, e.total, c);
    } else if e.Fail? {
      FailureLoses(s, e.id, c);
    } else {
      OthersLoseNothing(s, e, c);
    }
  }

  lemma PageIsNotDropped(s: State, request: Request)
    ensures request.FirstPage? ==> !Drops(s, request)
  {
  }

  lemma OthersLoseNothing(s: State, e: Event, c: Callback)
    requires !e.DoRequest? && !e.Answer? && !e.Fail?
    ensures Lost(Step(s, e), c) <==> Lost(s, c)
  {
    hide Replaced, WithPermanent, WithoutPermanent;
    var t := Step(s, e);
    assert t.queues == s.queues && t.called == s.called && t.issued == s.issued;
    assert forall slot, i :: Queued(t, slot, i, c) <==> Queued(s, slot, i, c);
    assert forall k :: CalledAt(t, k, c) <==> CalledAt(s, k, c);
  }

  lemma {:induction false} RunIsSilent(events: seq<Event>)
    ensures PagesSilent(Run(INITIAL, events))
    decreases |events|
  {
    if events != [] {
      hide Step, PagesSilent;
      RunIsSilent(events[..|events| - 1]);
      StepKeepsPagesSilent(Run(INITIAL, events[..|events| - 1]), events[|events| - 1]);
    }
  }

  // An event of the run discarded c.
  ghost predicate Discarded(events: seq<Event>, c: Callback)
    decreases |events|
  {
    events != [] &&
    var n := |events| - 1;
    Discarded(events[..n], c) || Discards(Run(INITIAL, events[..n]), events[n], c)
  }

  lemma {:induction false} LostExactlyWhenDiscarded(events: seq<Event>, c: Callback)
    ensures Lost(Run(INITIAL, events), c) <==> Discarded(events, c)
    decreases |events|
  {
    if events != [] {
      hide Step, Lost, Discards, Once, Coalescing, PagesSilent;
      var n := |events| - 1;
      LostExactlyWhenDiscarded(events[..n], c);
      RunKeeps(events[..n]);
      RunIsSilent(events[..n]);
      StepLoses(Run(INITIAL, events[..n]), events[n], c);
    }
  }

  // The smallest example: the callback of an edit that follows a deletion of the link.
  lemma DroppedEditIsLost(key: LinkKey)
    ensures Lost(Run(INITIAL, [DoRequest(Delete(key), false), DoRequest(Edit(key), true)]), 0)
  {
    var first, events := DoRequest(Delete(key), false), [DoRequest(Delete(key), false), DoRequest(Edit(key), true)];
    var s := Run(INITIAL, [first]);
    OneEvent(first);
    assert events[..1] == [first];
    assert DeleteSlot(key) in s.queues && s.issued == 0;
    assert Drops(s, Edit(key)) && Discards(s, events[1], 0);
    LostExactlyWhenDiscarded(events, 0);
  }

  // In every run a callback that was handed in is waiting, called or discarded, and only
  // one of these; it waits in one place and is called once.
  lemma EveryCallbackHasOneFate(events: seq<Event>, c: Callback)
    requires c < Run(INITIAL, events).issued
    ensures var s := Run(INITIAL, events);
            && (Waiting(s, c) || Called(s, c) || Discarded(events, c))
            && !(Waiting(s, c) && Called(s, c))
            && !(Waiting(s, c) && Discarded(events, c))
            && !(Called(s, c) && Discarded(events, c))
    ensures var s := Run(INITIAL, events);
            && (forall slot, i, slot', j :: Queued(s, slot, i, c) && Queued(s, slot', j, c) ==> slot == slot' && i == j)
            && (forall k, l :: CalledAt(s, k, c) && CalledAt(s, l, c) ==> k == l)
  {
    LostExactlyWhenDiscarded(events, c);
    RunKeeps(events);
  }

  lemma StepKeepsLost(s: State, e: Event, c: Callback)
    requires Lost(s, c)
    ensures Lost(Step(s, e), c)
  {
    hide Requested, Answered, Failed;
    if !Enabled(s, e) {
    } else if e.DoRequest? {
      RequestWaiting(s, e.request, e.withDone, c);
      RequestRecords(s, e.request, e.withDone, c);
    } else if e.Answer? {
      AnswerKeepsLost(s, e.id, e.links, e.total, c);
    } else if e.Fail? {
      FailureKeepsLost(s, e.id, c);
    } else {
      OthersLoseNothing(s, e, c);
    }
  }

  lemma AnswerKeepsLost(s: State, id: RequestId, links: seq<Link>, total: int, c: Callback)
    requires Lost(s, c) && Enabled(s, Answer(id, links, total))
    ensures Lost(Answered(s, id, links, total), c)
  {
    AnswerShape(s, id, links, total);
    var t, slot := Answered(s, id, links, total), s.inFlight[id].Slot();
    hide Answered;
    assert forall other, i :: Queued(t, other, i, c) ==> Queued(s, other, i, c);
    assert forall k :: CalledAt(t, k, c) ==> CalledAt(s, k, c) || Queued(s, slot, k - |s.called|, c);
  }

  lemma FailureKeepsLost(s: State, id: RequestId, c: Callback)
    requires Lost(s, c) && id in s.inFlight
    ensures Lost(Failed(s, id), c)
  {
    var t := Failed(s, id);
    assert forall slot, i :: Queued(t, slot, i, c) ==> Queued(s, slot, i, c);
    assert forall k :: CalledAt(t, k, c) ==> CalledAt(s, k, c);
  }

  // A lost callback is never called, whatever happens later.
  lemma {:induction false} LostStaysLost(s: State, more: seq<Event>, c: Callback)
    requires Lost(s, c)
    ensures Lost(Run(s, more), c)
    decreases |more|
  {
    hide Lost, Step;
    if more != [] {
      var n := |more| - 1;
      LostStaysLost(s, more[..n], c);
      StepKeepsLost(Run(s, more[..n]), more[n], c);
    }
  }

  // ----- callbacks that another request answers -----

  // While c waits, it waits in this slot, and the request in flight for the slot is q.
  ghost predicate Served(s: State, c: Callback, slot: Slot, q: Request) {
    && c < s.issued
    && (forall other, i :: Queued(s, other, i, c) ==> other == slot)
    && (Waiting(s, c) ==> forall id :: id in s.inFlight && s.inFlight[id].Slot() == slot ==> s.inFlight[id] == q)
  }

  lemma WaitsInSlot(s: State, c: Callback, slot: Slot, q: Request)
    requires Served(s, c, slot, q)
    ensures Waiting(s, c) ==> slot in s.queues
  {
  }

  lemma QueuedBefore(s: State, request: Request, withDone: bool, c: Callback)
    requires c < s.issued
    ensures forall other, i :: Queued(Requested(s, request, withDone), other, i, c) ==> Queued(s, other, i, c)
  {
    RequestShape(s, request, withDone);
    hide Requested, Drops, Request.Slot;
  }

  lemma ServedAfterRequest(s: State, request: Request, withDone: bool, c: Callback, slot: Slot, q: Request)
    requires Served(s, c, slot, q)
    ensures Served(Requested(s, request, withDone), c, slot, q)
  {
    RequestShape(s, request, withDone);
    RequestKinds(s, request, withDone);
    assert Requested(s, request, withDone) == Step(s, DoRequest(request, withDone));
    WaitsInSlot(s, c, slot, q);
    QueuedBefore(s, request, withDone, c);
    RequestWaiting(s, request, withDone, c);
    hide Requested, Drops, Step, Queued, Waiting, Request.Slot;
  }

  lemma ServedAfterLess(s: State, t: State, c: Callback, slot: Slot, q: Request)
    requires Served(s, c, slot, q) && t.issued == s.issued
    requires forall other :: other in t.queues ==> other in s.queues && t.queues[other] == s.queues[other]
    requires forall id :: id in t.inFlight ==> id in s.inFlight && t.inFlight[id] == s.inFlight[id]
    ensures Served(t, c, slot, q)
  {
    assert forall other, i :: Queued(t, other, i, c) ==> Queued(s, other, i, c);
  }

  lemma StepKeepsServed(s: State, e: Event, c: Callback, slot: Slot, q: Request)
    requires Served(s, c, slot, q)
    ensures Served(Step(s, e), c, slot, q)
  {
    hide Served, Requested, Answered, Replaced, WithPermanent, WithoutPermanent;
    if !Enabled(s, e) {
    } else if e.DoRequest? {
      ServedAfterRequest(s, e.request, e.withDone, c, slot, q);
    } else {
      if e.Answer? {
        AnswerShape(s, e.id, e.links, e.total);
      }
      ServedAfterLess(s, Step(s, e), c, slot, q);
    }
  }

  lemma {:induction false} RunKeepsServed(s: State, more: seq<Event>, c: Callback, slot: Slot, q: Request)
    requires Served(s, c, slot, q)
    ensures Served(Run(s, more), c, slot, q)
    decreases |more|
  {
    hide Served, Step;
    if more != [] {
      var n := |more| - 1;
      RunKeepsServed(s, more[..n], c, slot, q);
      StepKeepsServed(Run(s, more[..n]), more[n], c, slot, q);
    }
  }

  // The request that serves a new callback: the pending one for its slot, or its own.
  ghost predicate Serves(s: State, request: Request, q: Request) {
    && (forall id :: id in s.inFlight && s.inFlight[id].Slot() == request.Slot() ==> s.inFlight[id] == q)
    && (!InFlightFor(s, request.Slot()) ==> q == request)
  }

  lemma ServedAtFirst(s: State, request: Request, q: Request)
    requires Once(s) && Coalescing(s) && !request.FirstPage? && Serves(s, request, q)
    ensures Served(Requested(s, request, true), s.issued, request.Slot(), q)
  {
    OnceFresh(s);
    RequestShape(s, request, true);
    RequestKinds(s, request, true);
    QueuedInSlot(s, request);
    assert request.Slot() !in s.queues ==> !InFlightFor(s, request.Slot());
    assert Requested(s, request, true) == Step(s, DoRequest(request, true));
    hide Requested, Drops, Step, Once, Request.Slot, Queued, Waiting;
  }

  lemma QueuedInSlot(s: State, request: Request)
    requires !Waiting(s, s.issued)
    ensures forall other, i :: Queued(Requested(s, request, true), other, i, s.issued) ==> other == request.Slot()
  {
    RequestShape(s, request, true);
    hide Requested, Drops, Request.Slot;
    forall other, i | Queued(Requested(s, request, true), other, i, s.issued) ensures other == request.Slot() {
      assert other != request.Slot() ==> Queued(s, other, i, s.issued);
    }
  }

  lemma CalledByServing(s: State, c: Callback, slot: Slot, q: Request, id: RequestId, links: seq<Link>, total: int)
    requires Served(s, c, slot, q) && Enabled(s, Answer(id, links, total))
    requires !Called(s, c) && Called(Answered(s, id, links, total), c)
    ensures s.inFlight[id] == q
  {
    AnswerShape(s, id, links, total);
    var t, mine := Answered(s, id, links, total), s.inFlight[id].Slot();
    hide Answered;
    var k :| CalledAt(t, k, c);
    assert k >= |s.called| by {
      assert k < |s.called| ==> CalledAt(s, k, c);
    }
    assert Queued(s, mine, k - |s.called|, c);
  }

  // In every run a callback is called by the answer of the request that was in flight for
  // its slot when it was handed in, and of its own request only if there was none.
  lemma AnsweredByPending(
    events: seq<Event>, request: Request, q: Request, more: seq<Event>, id: RequestId, links: seq<Link>, total: int)
    requires !request.FirstPage? && Serves(Run(INITIAL, events), request, q)
    requires var s := Run(INITIAL, events);
             var t := Run(Step(s, DoRequest(request, true)), more);
             && Enabled(t, Answer(id, links, total))
             && !Called(t, s.issued) && Called(Step(t, Answer(id, links, total)), s.issued)
    ensures Run(Step(Run(INITIAL, events), DoRequest(request, true)), more).inFlight[id] == q
  {
    var s := Run(INITIAL, events);
    RunKeeps(events);
    ServedAtFirst(s, request, q);
    var first := Step(s, DoRequest(request, true));
    assert first == Requested(s, request, true);
    hide Served, Serves, Requested, Run, Answered;
    RunKeepsServed(first, more, s.issued, request.Slot(), q);
    CalledByServing(Run(first, more), s.issued, request.Slot(), q, id, links, total);
  }

  ghost predicate InFlightExactly(s: State, request: Request) {
    exists id :: id in s.inFlight && s.inFlight[id] == request
  }

  // A callback of a revocation is called with an edited link, and no revocation of its own
  // is sent, exactly when an edit of the link was in flight.
  lemma RevocationAnsweredByEdit(
    events: seq<Event>, key: LinkKey, mine: bool, more: seq<Event>, id: RequestId, links: seq<Link>, total: int)
    requires var s := Run(INITIAL, events);
             var t := Run(Step(s, DoRequest(Revoke(key, mine), true)), more);
             && Enabled(t, Answer(id, links, total))
             && !Called(t, s.issued) && Called(Step(t, Answer(id, links, total)), s.issued)
    ensures var s := Run(INITIAL, events);
            var first := Step(s, DoRequest(Revoke(key, mine), true));
            && (Run(first, more).inFlight[id].Edit? <==> InFlightExactly(s, Edit(key)))
            && (InFlightExactly(s, Edit(key)) ==> first.inFlight == s.inFlight && first.nextId == s.nextId)
  {
    var s, request := Run(INITIAL, events), Revoke(key, mine);
    RunKeeps(events);
    var q := ServingRequest(s, request);
    AnsweredByPending(events, request, q, more, id, links, total);
    RequestKinds(s, request, true);
    hide Run, Step, Once;
  }

  ghost function ServingRequest(s: State, request: Request): (q: Request)
    requires Coalescing(s)
    ensures Serves(s, request, q) && q.Slot() == request.Slot()
    ensures q != request ==> InFlightExactly(s, q)
  {
    if InFlightFor(s, request.Slot()) then
      var id :| id in s.inFlight && s.inFlight[id].Slot() == request.Slot();
      s.inFlight[id]
    else request
  }

  // A deletion of all revoked links of one admin is reported as done by that of another,
  // and not sent, exactly when the other's was in flight.
  lemma DeletionAnsweredForOtherAdmin(
    events: seq<Event>, peer: Peer, admin: UserId, more: seq<Event>, id: RequestId, links: seq<Link>, total: int)
    requires var s := Run(INITIAL, events);
             var t := Run(Step(s, DoRequest(DeleteRevoked(peer, admin), true)), more);
             && Enabled(t, Answer(id, links, total))
             && !Called(t, s.issued) && Called(Step(t, Answer(id, links, total)), s.issued)
    ensures var s := Run(INITIAL, events);
            var first := Step(s, DoRequest(DeleteRevoked(peer, admin), true));
            forall other :: other != admin ==>
              && (Run(first, more).inFlight[id] == DeleteRevoked(peer, other) <==> InFlightExactly(s, DeleteRevoked(peer, other)))
              && (InFlightExactly(s, DeleteRevoked(peer, other)) ==> first.inFlight == s.inFlight && first.nextId == s.nextId)
  {
    var s, request := Run(INITIAL, events), DeleteRevoked(peer, admin);
    RunKeeps(events);
    var q := ServingRequest(s, request);
    AnsweredByPending(events, request, q, more, id, links, total);
    RequestKinds(s, request, true);
    hide Run, Step, Once;
  }

  // The smallest examples: one request is ever sent, and its answer calls the callback of
  // the other.
  lemma EditAnswersRevocation(key: LinkKey, mine: bool, link: Link)
    ensures var s := Run(INITIAL, [DoRequest(Edit(key), false), DoRequest(Revoke(key, mine), true), Answer(1, [link], 1)]);
            s.called == [Call(0, Some(link))] && s.nextId == 2 && s.inFlight == map[]
  {
    var a, b, c := DoRequest(Edit(key), false), DoRequest(Revoke(key, mine), true), Answer(1, [link], 1);
    ThreeEvents(a, b, c);
    hide Run;
    var s := Step(INITIAL, a);
    assert s.queues == map[EditSlot(key) := []] && s.inFlight == map[1 := Edit(key)];
    var t := Step(s, b);
    assert t.queues[EditSlot(key)] == [0] && t.inFlight == s.inFlight && t.issued == 1 && t.nextId == 2;
    AnswerShape(t, 1, [link], 1);
    hide Answered;
  }

  lemma DeletionAnswersOtherAdmin(peer: Peer, admin: UserId, other: UserId)
    ensures var s := Run(INITIAL, [DoRequest(DeleteRevoked(peer, admin), false), DoRequest(DeleteRevoked(peer, other), true),
                                   Answer(1, [], 0)]);
            s.called == [Call(0, None)] && s.nextId == 2 && s.inFlight == map[]
  {
    var a, b, c := DoRequest(DeleteRevoked(peer, admin), false), DoRequest(DeleteRevoked(peer, other), true), Answer(1, [], 0);
    ThreeEvents(a, b, c);
    hide Run;
    var s, slot := Step(INITIAL, a), DeleteRevokedSlot(peer);
    assert s.queues == map[slot := []] && s.inFlight == map[1 := DeleteRevoked(peer, admin)];
    var t := Step(s, b);
    assert t.queues[slot] == [0] && t.inFlight == s.inFlight && t.issued == 1 && t.nextId == 2;
    AnswerShape(t, 1, [], 0);
    hide Answered;
  }

  lemma ThreeEvents(a: Event, b: Event, c: Event)
    ensures Run(INITIAL, [a, b, c]) == Step(Step(Step(INITIAL, a), b), c)
  {
    hide Step;
    TwoEvents(a, b);
    assert [a, b, c][..2] == [a, b];
    assert Run(INITIAL, [a, b, c]) == Step(Run(INITIAL, [a, b, c][..2]), [a, b, c][2]);
  }

  // ----- keys without a request -----

  lemma StepKeepsStuck(s: State, e: Event, peer: Peer)
    requires Stuck(s, peer)
    ensures Stuck(Step(s, e), peer)
    ensures s.queues[DeleteRevokedSlot(peer)] <= Step(s, e).queues[DeleteRevokedSlot(peer)]
  {
    hide Answered, Replaced, WithPermanent, WithoutPermanent;
    var t, slot := Step(s, e), DeleteRevokedSlot(peer);
    if !Enabled(s, e) {
    } else if e.DoRequest? {
      RequestShape(s, e.request, e.withDone);
      RequestKinds(s, e.request, e.withDone);
      hide Requested;
    } else if e.Answer? {
      AnswerShape(s, e.id, e.links, e.total);
    }
    assert forall id :: id in t.inFlight && t.inFlight[id].Slot() == slot ==> id in s.inFlight && s.inFlight[id].Slot() == slot;
  }

  // Once such a request has failed, every later deletion for the peer waits for ever.
  lemma {:induction false} StuckStaysStuck(s: State, more: seq<Event>, peer: Peer)
    requires Stuck(s, peer)
    ensures Stuck(Run(s, more), peer)
    ensures s.queues[DeleteRevokedSlot(peer)] <= Run(s, more).queues[DeleteRevokedSlot(peer)]
    decreases |more|
  {
    hide Step;
    if more != [] {
      var n := |more| - 1;
      StuckStaysStuck(s, more[..n], peer);
      StepKeepsStuck(Run(s, more[..n]), more[n], peer);
    }
  }

  // Whether no request to delete all revoked links has failed in a run.
  ghost predicate NoRevokedFailure(events: seq<Event>)
    decreases |events|
  {
    events == [] ||
    var n := |events| - 1;
    var s, e := Run(INITIAL, events[..n]), events[n];
    NoRevokedFailure(events[..n]) && !(e.Fail? && e.id in s.inFlight && s.inFlight[e.id].DeleteRevoked?)
  }

  // A key is without a request exactly when such a request has failed.
  lemma {:induction false} StuckExactlyAfterFailure(events: seq<Event>)
    ensures NoRevokedFailure(events) <==> NoneStuck(Run(INITIAL, events))
    decreases |events|
  {
    if events != [] {
      hide Step, Coalescing, Once, Stuck;
      var n := |events| - 1;
      var before := Run(INITIAL, events[..n]);
      RunKeeps(events[..n]);
      StuckExactlyAfterFailure(events[..n]);
      StepCoalesces(before, events[n]);
      if !NoneStuck(before) {
        var peer: Peer :| Stuck(before, peer);
        StepKeepsStuck(before, events[n], peer);
      }
    }
  }

  // The smallest example.
  lemma FailedDeletionIsStuck(peer: Peer, admin: UserId)
    ensures Stuck(Run(INITIAL, [DoRequest(DeleteRevoked(peer, admin), false), Fail(1)]), peer)
  {
    var a, b := DoRequest(DeleteRevoked(peer, admin), false), Fail(1);
    TwoEvents(a, b);
    hide Run;
    var s := Step(INITIAL, a);
    assert DeleteRevokedSlot(peer) in s.queues && s.inFlight == map[1 := DeleteRevoked(peer, admin)];
    assert Step(s, b).inFlight == map[];
  }
}
