// The InviteLinks object: its maps, and its methods proved against the state machine of
// InviteProtocol.  Callbacks are recorded in called instead of being run.
module InviteLinksObject {
  import opened Wrappers
  import opened InviteList
  import opened InviteProtocol

  // pending holds the queues of the four callback maps and the page requests, by slot.
  ghost predicate Agree(
    pending: map<Slot, seq<Callback>>,
    creating: map<Peer, seq<Callback>>, editing: map<LinkKey, seq<Callback>>,
    deleting: map<LinkKey, seq<Callback>>, deletingRevoked: map<Peer, seq<Callback>>,
    pages: map<Peer, RequestId>)
  {
    && (forall p :: CreateSlot(p) in pending <==> p in creating)
    && (forall p :: p in creating ==> pending[CreateSlot(p)] == creating[p])
    && (forall k :: EditSlot(k) in pending <==> k in editing)
    && (forall k :: k in editing ==> pending[EditSlot(k)] == editing[k])
    && (forall k :: DeleteSlot(k) in pending <==> k in deleting)
    && (forall k :: k in deleting ==> pending[DeleteSlot(k)] == deleting[k])
    && (forall p :: DeleteRevokedSlot(p) in pending <==> p in deletingRevoked)
    && (forall p :: p in deletingRevoked ==> pending[DeleteRevokedSlot(p)] == deletingRevoked[p])
    && (forall p :: PageSlot(p) in pending <==> p in pages)
    && (forall p :: p in pages ==> pending[PageSlot(p)] == [])
  }

  function QueueAt<K>(queues: map<K, seq<Callback>>, key: K): seq<Callback> {
    if key in queues then queues[key] else []
  }

  // A map of queues after handing callbacks to one of them, which may be new.
  function Pushed<K>(queues: map<K, seq<Callback>>, key: K, handed: seq<Callback>): map<K, seq<Callback>> {
    queues[key := if key in queues then queues[key] + handed else handed]
  }

  lemma PushAgrees(
    pending: map<Slot, seq<Callback>>,
    creating: map<Peer, seq<Callback>>, editing: map<LinkKey, seq<Callback>>,
    deleting: map<LinkKey, seq<Callback>>, deletingRevoked: map<Peer, seq<Callback>>,
    pages: map<Peer, RequestId>, slot: Slot, handed: seq<Callback>)
    requires Agree(pending, creating, editing, deleting, deletingRevoked, pages) && !slot.PageSlot?
    ensures Agree(Pushed(pending, slot, handed),
                  if slot.CreateSlot? then Pushed(creating, slot.peer, handed) else creating,
                  if slot.EditSlot? then Pushed(editing, slot.key, handed) else editing,
                  if slot.DeleteSlot? then Pushed(deleting, slot.key, handed) else deleting,
                  if slot.DeleteRevokedSlot? then Pushed(deletingRevoked, slot.peer, handed) else deletingRevoked,
                  pages)
  {
  }

  lemma TakeAgrees(
    pending: map<Slot, seq<Callback>>,
    creating: map<Peer, seq<Callback>>, editing: map<LinkKey, seq<Callback>>,
    deleting: map<LinkKey, seq<Callback>>, deletingRevoked: map<Peer, seq<Callback>>,
    pages: map<Peer, RequestId>, slot: Slot)
    requires Agree(pending, creating, editing, deleting, deletingRevoked, pages) && !slot.PageSlot?
    ensures Agree(pending - {slot},
                  if slot.CreateSlot? then creating - {slot.peer} else creating,
                  if slot.EditSlot? then editing - {slot.key} else editing,
                  if slot.DeleteSlot? then deleting - {slot.key} else deleting,
                  if slot.DeleteRevokedSlot? then deletingRevoked - {slot.peer} else deletingRevoked,
                  pages)
  {
  }

  lemma SameQueue(
    pending: map<Slot, seq<Callback>>,
    creating: map<Peer, seq<Callback>>, editing: map<LinkKey, seq<Callback>>,
    deleting: map<LinkKey, seq<Callback>>, deletingRevoked: map<Peer, seq<Callback>>,
    pages: map<Peer, RequestId>, slot: Slot)
    requires Agree(pending, creating, editing, deleting, deletingRevoked, pages)
    ensures QueueAt(pending, slot) ==
            match slot
            case CreateSlot(peer) => QueueAt(creating, peer)
            case EditSlot(key) => QueueAt(editing, key)
            case DeleteSlot(key) => QueueAt(deleting, key)
            case DeleteRevokedSlot(peer) => QueueAt(deletingRevoked, peer)
            case PageSlot(_) => []
  {
  }

  // ----- list algorithms -----

  // ranges::find over the names.
  method FindLink(links: seq<Link>, name: string) returns (i: nat)
    ensures i == IndexOf(links, name)
  {
    i := 0;
    while i < |links| && links[i].link != name
      invariant i <= |links|
      invariant IndexOf(links, name) == i + IndexOf(links[i..], name)
    {
      i := i + 1;
    }
  }

  method BringPermanentToFront(links: seq<Link>) returns (r: seq<Link>)
    ensures r == BroughtToFront(links)
  {
    var i := 0;
    while i < |links| && !links[i].Active()
      invariant i <= |links|
      invariant FirstActive(links) == i + FirstActive(links[i..])
    {
      i := i + 1;
    }
    assert FirstActive(links) == i;
    hide FirstActive, Link.Active;
    r := links;
    if i != |links| && i != 0 {
      r := [links[i]] + links[..i] + links[i + 1..];
    }
  }

  method RemovePermanent(links: seq<Link>) returns (r: seq<Link>)
    ensures r == Inactive(links)
  {
    r := [];
    var i := 0;
    while i < |links|
      invariant 0 <= i <= |links|
      invariant r == Inactive(links[..i])
    {
      if !links[i].Active() {
        r := r + [links[i]];
      }
      assert links[..i + 1][..i] == links[..i];
      i := i + 1;
    }
    assert links[..i] == links;
  }

  lemma TakenAndCalled(s: State, slot: Slot, link: Option<Link>)
    ensures Finished(s, slot, link) ==
            s.(queues := s.queues - {slot}, called := s.called + Calls(QueueAt(s.queues, slot), link))
  {
    if slot !in s.queues {
      assert s.queues - {slot} == s.queues;
      assert s.called + Calls([], link) == s.called;
    }
  }

  lemma PageStaysPending(s: State, peer: Peer)
    requires PageSlot(peer) in s.queues && s.queues[PageSlot(peer)] == []
    ensures Requested(s, FirstPage(peer), false) == s
  {
    var queue := s.queues[PageSlot(peer)];
    assert queue + s.Handed(false) == queue;
    assert s.queues[PageSlot(peer) := queue] == s.queues;
  }

  class InviteLinks {
    var firstSlices: map<Peer, Slice>
    var firstSliceRequests: map<Peer, RequestId>
    var createCallbacks: map<Peer, seq<Callback>>
    var editCallbacks: map<LinkKey, seq<Callback>>
    var deleteCallbacks: map<LinkKey, seq<Callback>>
    var deleteRevokedCallbacks: map<Peer, seq<Callback>>
    // The sender, and the callbacks handed in and called so far.
    var inFlight: map<RequestId, Request>
    var nextId: RequestId
    var issued: Callback
    var called: seq<Call>

    ghost var queues: map<Slot, seq<Callback>>

    ghost predicate Valid()
      reads this
    {
      Agree(queues, createCallbacks, editCallbacks, deleteCallbacks, deleteRevokedCallbacks, firstSliceRequests)
    }

    ghost function View(): State
      reads this
    {
      State(firstSlices, queues, inFlight, nextId, issued, called)
    }

    constructor ()
      ensures Valid() && View() == INITIAL
    {
      firstSlices, firstSliceRequests := map[], map[];
      createCallbacks, editCallbacks, deleteCallbacks, deleteRevokedCallbacks := map[], map[], map[], map[];
      inFlight, nextId, issued, called, queues := map[], 1, 0, [], map[];
    }

    method Send(request: Request) returns (id: RequestId)
      modifies this`inFlight, this`nextId
      ensures View() == old(View()).Send(request) && id == old(nextId)
    {
      id := nextId;
      inFlight, nextId := inFlight[nextId := request], nextId + 1;
    }

    method Pending(slot: Slot) returns (r: bool)
      requires Valid()
      ensures r == (slot in queues)
    {
      match slot {
        case CreateSlot(peer) => r := peer in createCallbacks;
        case EditSlot(key) => r := key in editCallbacks;
        case DeleteSlot(key) => r := key in deleteCallbacks;
        case DeleteRevokedSlot(peer) => r := peer in deleteRevokedCallbacks;
        case PageSlot(peer) => r := peer in firstSliceRequests;
      }
    }

    method Push(slot: Slot, handed: seq<Callback>)
      requires Valid() && !slot.PageSlot?
      modifies this
      ensures Valid() && View() == old(View()).(queues := Pushed(old(queues), slot, handed))
    {
      PushAgrees(queues, createCallbacks, editCallbacks, deleteCallbacks, deleteRevokedCallbacks,
                 firstSliceRequests, slot, handed);
      hide Agree, Pushed;
      match slot {
        case CreateSlot(peer) => createCallbacks := Pushed(createCallbacks, peer, handed);
        case EditSlot(key) => editCallbacks := Pushed(editCallbacks, key, handed);
        case DeleteSlot(key) => deleteCallbacks := Pushed(deleteCallbacks, key, handed);
        case DeleteRevokedSlot(peer) => deleteRevokedCallbacks := Pushed(deleteRevokedCallbacks, peer, handed);
      }
      queues := Pushed(queues, slot, handed);
    }

    // Push the caller's callback into the queue of this slot; pending tells whether its key
    // was there.
    method Queue(slot: Slot, withDone: bool) returns (pending: bool)
      requires Valid() && !slot.PageSlot?
      modifies this
      ensures Valid() && pending == (slot in old(queues))
      ensures View() == old(View()).Issue(withDone).(queues := Pushed(old(queues), slot, old(View()).Handed(withDone)))
    {
      pending := Pending(slot);
      hide Agree, Pushed;
      if withDone {
        Push(slot, [issued]);
        issued := issued + 1;
      } else {
        Push(slot, []);
      }
    }

    // Take the queue of this slot out of its map.
    method Take(slot: Slot) returns (callbacks: seq<Callback>)
      requires Valid() && !slot.PageSlot?
      modifies this
      ensures Valid() && View() == old(View()).(queues := old(queues) - {slot})
      ensures callbacks == QueueAt(old(queues), slot)
    {
      SameQueue(queues, createCallbacks, editCallbacks, deleteCallbacks, deleteRevokedCallbacks,
                firstSliceRequests, slot);
      TakeAgrees(queues, createCallbacks, editCallbacks, deleteCallbacks, deleteRevokedCallbacks,
                 firstSliceRequests, slot);
      hide Agree, QueueAt;
      match slot {
        case CreateSlot(peer) =>
          callbacks := QueueAt(createCallbacks, peer);
          createCallbacks := createCallbacks - {peer};
        case EditSlot(key) =>
          callbacks := QueueAt(editCallbacks, key);
          editCallbacks := editCallbacks - {key};
        case DeleteSlot(key) =>
          callbacks := QueueAt(deleteCallbacks, key);
          deleteCallbacks := deleteCallbacks - {key};
        case DeleteRevokedSlot(peer) =>
          callbacks := QueueAt(deleteRevokedCallbacks, peer);
          deleteRevokedCallbacks := deleteRevokedCallbacks - {peer};
      }
      queues := queues - {slot};
    }

    method PerformCreate(peer: Peer, withDone: bool)
      requires Valid()
      modifies this
      ensures Valid()
      ensures View() == Requested(old(View()), Create(peer), withDone)
    {
      hide Agree;
      var pending := Queue(CreateSlot(peer), withDone);
      if !pending {
        var _ := Send(Create(peer));
      }
    }

    method PerformEdit(key: LinkKey, revoke: bool, mine: bool, withDone: bool)
      requires Valid()
      modifies this
      ensures Valid()
      ensures View() == Requested(old(View()), if revoke then Revoke(key, mine) else Edit(key), withDone)
    {
      var deleting := Pending(DeleteSlot(key));
      hide Agree;
      if deleting {
        if withDone {
          issued := issued + 1;
        }
        return;
      }
      var pending := Queue(EditSlot(key), withDone);
      if !pending {
        var _ := Send(if revoke then Revoke(key, mine) else Edit(key));
      }
    }

    method Destroy(key: LinkKey, withDone: bool)
      requires Valid()
      modifies this
      ensures Valid()
      ensures View() == Requested(old(View()), Delete(key), withDone)
    {
      hide Agree;
      var pending := Queue(DeleteSlot(key), withDone);
      if !pending {
        var _ := Send(Delete(key));
      }
    }

    method DestroyAllRevoked(peer: Peer, admin: UserId, withDone: bool)
      requires Valid()
      modifies this
      ensures Valid()
      ensures View() == Requested(old(View()), DeleteRevoked(peer, admin), withDone)
    {
      hide Agree;
      var pending := Queue(DeleteRevokedSlot(peer), withDone);
      if !pending {
        var _ := Send(DeleteRevoked(peer, admin));
      }
    }

    method RequestMyLinks(peer: Peer)
      requires Valid()
      modifies this
      ensures Valid()
      ensures View() == Requested(old(View()), FirstPage(peer), false)
    {
      var pending := Pending(PageSlot(peer));
      assert pending ==> queues[PageSlot(peer)] == [];
      hide Agree;
      if pending {
        PageStaysPending(View(), peer);
        return;
      }
      var id := Send(FirstPage(peer));
      KeepPageRequest(peer, id);
    }

    method KeepPageRequest(peer: Peer, id: RequestId)
      requires Valid()
      modifies this`firstSliceRequests, this`queues
      ensures Valid() && queues == old(queues)[PageSlot(peer) := []]
    {
      firstSliceRequests := firstSliceRequests[peer := id];
      queues := queues[PageSlot(peer) := []];
    }

    method CallAll(callbacks: seq<Callback>, link: Option<Link>)
      modifies this`called
      ensures called == old(called) + Calls(callbacks, link)
    {
      var i := 0;
      while i < |callbacks|
        invariant 0 <= i <= |callbacks|
        invariant called == old(called) + Calls(callbacks[..i], link)
      {
        called := called + [Call(callbacks[i], link)];
        i := i + 1;
      }
      assert callbacks[..i] == callbacks;
    }

    method PrependMyToFirstSlice(peer: Peer, link: Link)
      modifies this`firstSlices
      ensures View() == LinkPrepended(old(View()), peer, link)
    {
      var slice := if peer in firstSlices then firstSlices[peer] else EMPTY;
      var had := slice.LookupMyPermanent().Some?;
      if link.permanent && had {
        slice := slice.(links := slice.links[1..]);
        if slice.count > 0 {
          slice := slice.(count := slice.count - 1);
        }
      }
      slice := slice.(count := slice.count + 1);
      if had && !link.permanent {
        slice := slice.(links := [slice.links[0], link] + slice.links[1..]);
      } else {
        slice := slice.(links := [link] + slice.links);
      }
      firstSlices := firstSlices[peer := slice];
    }

    method EditInFirstSlice(key: LinkKey, link: Link)
      modifies this`firstSlices
      ensures View() == LinkEdited(old(View()), key, link)
    {
      if key.peer in firstSlices {
        var slice := firstSlices[key.peer];
        var j := FindLink(slice.links, key.link);
        if j != |slice.links| {
          if link.revoked && !slice.links[j].revoked {
            slice := slice.(links := slice.links[..j] + slice.links[j + 1..]);
            if slice.count > 0 {
              slice := slice.(count := slice.count - 1);
            }
          } else {
            slice := slice.(links := slice.links[j := link]);
          }
        }
        firstSlices := firstSlices[key.peer := slice];
      }
    }

    method CreateDone(peer: Peer, link: Link)
      requires Valid()
      modifies this
      ensures Valid()
      ensures View() == LinkPrepended(Finished(old(View()), CreateSlot(peer), Some(link)), peer, link)
    {
      TakenAndCalled(View(), CreateSlot(peer), Some(link));
      hide Agree, QueueAt, Finished, Calls;
      var callbacks := Take(CreateSlot(peer));
      PrependMyToFirstSlice(peer, link);
      CallAll(callbacks, Some(link));
    }

    method EditDone(key: LinkKey, link: Link)
      requires Valid()
      modifies this
      ensures Valid()
      ensures View() == LinkEdited(Finished(old(View()), EditSlot(key), Some(link)), key, link)
    {
      TakenAndCalled(View(), EditSlot(key), Some(link));
      hide Agree, QueueAt, Finished, Calls;
      var callbacks := Take(EditSlot(key));
      EditInFirstSlice(key, link);
      CallAll(callbacks, Some(link));
    }

    method DestroyDone(key: LinkKey)
      requires Valid()
      modifies this
      ensures Valid()
      ensures View() == Finished(old(View()), DeleteSlot(key), None)
    {
      TakenAndCalled(View(), DeleteSlot(key), None);
      hide Agree, QueueAt, Finished, Calls;
      var callbacks := Take(DeleteSlot(key));
      CallAll(callbacks, None);
    }

    method DestroyAllRevokedDone(peer: Peer)
      requires Valid()
      modifies this
      ensures Valid()
      ensures View() == Finished(old(View()), DeleteRevokedSlot(peer), None)
    {
      TakenAndCalled(View(), DeleteRevokedSlot(peer), None);
      hide Agree, QueueAt, Finished, Calls;
      var callbacks := Take(DeleteRevokedSlot(peer));
      CallAll(callbacks, None);
    }

    // The page without the known permanent link.
    method ParseSlice(peer: Peer, page: seq<Link>) returns (links: seq<Link>)
      ensures links ==
              if peer in firstSlices && firstSlices[peer].LookupMyPermanent().Some?
              then Unnamed(page, firstSlices[peer].links[0].link) else page
    {
      var permanent := if peer in firstSlices then firstSlices[peer].LookupMyPermanent() else None;
      links := [];
      var i := 0;
      while i < |page|
        invariant 0 <= i <= |page|
        invariant links == if permanent.Some? then Unnamed(page[..i], permanent.value.link) else page[..i]
      {
        if permanent.None? || page[i].link != permanent.value.link {
          links := links + [page[i]];
        }
        assert page[..i + 1][..i] == page[..i];
        i := i + 1;
      }
      assert page[..i] == page;
    }

    method MyLinksDone(peer: Peer, page: seq<Link>, total: int)
      requires Valid()
      modifies this
      ensures Valid()
      ensures View() == PageArrived(old(View()), peer, page, total)
    {
      hide Agree;
      DropPageRequest(peer);
      var links := ParseSlice(peer, page);
      if peer in firstSlices && firstSlices[peer].LookupMyPermanent().Some? {
        links := RemovePermanent(links);
        var existing := [firstSlices[peer].links[0]] + links;
        firstSlices := firstSlices[peer := Slice(existing, if total > |existing| then total else |existing|)];
      } else {
        links := BringPermanentToFront(links);
        firstSlices := firstSlices[peer := Slice(links, total)];
      }
    }

    // The sender delivers an answer: the request is no longer in flight.
    method OnDone(id: RequestId, links: seq<Link>, total: int)
      requires Valid() && id in inFlight && Acceptable(inFlight[id], links)
      modifies this
      ensures Valid()
      ensures View() == Answered(old(View()), id, links, total)
    {
      var request := inFlight[id];
      inFlight := inFlight - {id};
      match request
      case Create(peer) => CreateDone(peer, links[0]);
      case Edit(key) => EditDone(key, links[0]);
      case Revoke(key, mine) =>
        EditDone(key, links[0]);
        if total > 1 && mine {
          PrependMyToFirstSlice(key.peer, links[|links| - 1]);
        }
      case Delete(key) => DestroyDone(key);
      case DeleteRevoked(peer, _) => DestroyAllRevokedDone(peer);
      case FirstPage(peer) => MyLinksDone(peer, links, total);
    }

    method OnFail(id: RequestId)
      requires Valid() && id in inFlight
      modifies this
      ensures Valid()
      ensures View() == Failed(old(View()), id)
    {
      hide Agree;
      var request := inFlight[id];
      inFlight := inFlight - {id};
      match request {
        case Create(peer) => var _ := Take(CreateSlot(peer));
        case Edit(key) => var _ := Take(EditSlot(key));
        case Revoke(key, _) => var _ := Take(EditSlot(key));
        case Delete(key) => var _ := Take(DeleteSlot(key));
        case DeleteRevoked(_, _) =>
        case FirstPage(peer) => DropPageRequest(peer);
      }
    }

    method DropPageRequest(peer: Peer)
      requires Valid()
      modifies this`firstSliceRequests, this`queues
      ensures Valid() && queues == old(queues) - {PageSlot(peer)}
    {
      firstSliceRequests := firstSliceRequests - {peer};
      queues := queues - {PageSlot(peer)};
    }

    method ApplyExternalUpdate(peer: Peer, updated: Link)
      modifies this`firstSlices
      ensures View() == ExternallyUpdated(old(View()), peer, updated)
    {
      if peer in firstSlices {
        var was := firstSlices[peer].links;
        var links, i := was, 0;
        while i < |links|
          invariant 0 <= i <= |links| == |was|
          invariant forall j :: 0 <= j < |links| ==> links[j] == if j < i then Replaced(was, updated)[j] else was[j]
        {
          if links[i].link == updated.link {
            links := links[i := updated];
          }
          i := i + 1;
        }
        assert links == Replaced(was, updated);
        firstSlices := firstSlices[peer := firstSlices[peer].(links := links)];
      }
    }

    method SetMyPermanent(peer: Peer, link: Link)
      modifies this`firstSlices
      ensures View() == PermanentSet(old(View()), peer, link)
    {
      if !link.permanent {
        return;
      }
      var slice := if peer in firstSlices then firstSlices[peer] else EMPTY;
      var permanent := slice.LookupMyPermanent();
      if permanent.Some? {
        if permanent.value.link == link.link {
          if permanent.value.usage != link.usage {
            slice := slice.(links := slice.links[0 := permanent.value.(usage := link.usage)]);
          }
          assert slice.links == [permanent.value.(usage := link.usage)] + slice.links[1..];
          firstSlices := firstSlices[peer := slice];
          return;
        }
        slice := slice.(links := slice.links[1..]);
        if slice.count > 0 {
          slice := slice.(count := slice.count - 1);
        }
      }
      slice := slice.(links := [link] + slice.links);
      firstSlices := firstSlices[peer := slice];
    }

    method ClearMyPermanent(peer: Peer)
      modifies this`firstSlices
      ensures View() == PermanentCleared(old(View()), peer)
    {
      if peer in firstSlices {
        var slice := firstSlices[peer];
        if slice.LookupMyPermanent().Some? {
          slice := slice.(links := slice.links[1..]);
          if slice.count > 0 {
            slice := slice.(count := slice.count - 1);
          }
        }
        firstSlices := firstSlices[peer := slice];
      }
    }

    // The effect on this cache of an approved join request whose link is unknown.
    method PruneFirstSlice(peer: Peer)
      modifies this`firstSlices
      ensures View() == Pruned(old(View()), peer)
    {
      firstSlices := firstSlices - {peer};
    }
  }
}
