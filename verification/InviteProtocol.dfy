// The invite-link cache as a state machine: the cached slices, the queues of callbacks that
// wait for a request, and the requests in flight.  A request gets one answer or one failure.
module InviteProtocol {
  import opened Wrappers
  import opened InviteList

  type Peer = nat
  type RequestId = nat
  type Callback = nat  // callbacks are numbered in the order in which they are handed in

  datatype LinkKey = LinkKey(peer: Peer, link: string)

  datatype Request =
    | Create(peer: Peer)
    | Edit(key: LinkKey)
    | Revoke(key: LinkKey, mine: bool)
    | Delete(key: LinkKey)
    | DeleteRevoked(peer: Peer, admin: UserId)
    | FirstPage(peer: Peer)
  {
    function Slot(): Slot {
      match this
      case Create(peer) => CreateSlot(peer)
      case Edit(key) => EditSlot(key)
      case Revoke(key, _) => EditSlot(key)
      case Delete(key) => DeleteSlot(key)
      case DeleteRevoked(peer, _) => DeleteRevokedSlot(peer)
      case FirstPage(peer) => PageSlot(peer)
    }
  }

  // What at most one request is meant to be in flight for.
  datatype Slot =
    | CreateSlot(peer: Peer)
    | EditSlot(key: LinkKey)
    | DeleteSlot(key: LinkKey)
    | DeleteRevokedSlot(peer: Peer)
    | PageSlot(peer: Peer)

  datatype Call = Call(callback: Callback, link: Option<Link>)

  // queues holds, for every pending slot, the callbacks that wait for it (none for a page).
  datatype State = State(
    slices: map<Peer, Slice>,
    queues: map<Slot, seq<Callback>>,
    inFlight: map<RequestId, Request>,
    nextId: RequestId,
    issued: Callback,
    called: seq<Call>)
  {
    function SliceOf(peer: Peer): Slice {
      if peer in slices then slices[peer] else EMPTY
    }

    function SetSlice(peer: Peer, slice: Slice): State {
      this.(slices := slices[peer := slice])
    }

    function Send(request: Request): State {
      this.(inFlight := inFlight[nextId := request], nextId := nextId + 1)
    }

    // A caller hands in a callback, or none.
    function Issue(withDone: bool): State {
      if withDone then this.(issued := issued + 1) else this
    }

    function Handed(withDone: bool): seq<Callback> {
      if withDone then [issued] else []
    }
  }

  const INITIAL := State(map[], map[], map[], 1, 0, [])

  // ----- requests -----

  // Queue behind a pending request with the same key, or send one.
  function Coalesced(s: State, request: Request, withDone: bool): State {
    var slot := request.Slot();
    if slot in s.queues then
      s.(queues := s.queues[slot := s.queues[slot] + s.Handed(withDone)]).Issue(withDone)
    else
      s.(queues := s.queues[slot := s.Handed(withDone)]).Issue(withDone).Send(request)
  }

  // An edit of a link that is being deleted is dropped with its callback.
  function Requested(s: State, request: Request, withDone: bool): State {
    if (request.Edit? || request.Revoke?) && DeleteSlot(request.key) in s.queues then s.Issue(withDone)
    else Coalesced(s, request, withDone && !request.FirstPage?)
  }

  // ----- answers -----

  function Calls(queue: seq<Callback>, link: Option<Link>): (c: seq<Call>)
    ensures |c| == |queue|
  {
    seq(|queue|, i requires 0 <= i < |queue| => Call(queue[i], link))
  }

  // Take the queue of a slot and call all of it.
  function Finished(s: State, slot: Slot, link: Option<Link>): State {
    if slot in s.queues then
      s.(queues := s.queues - {slot}, called := s.called + Calls(s.queues[slot], link))
    else s
  }

  function LinkEdited(s: State, key: LinkKey, link: Link): State {
    if key.peer in s.slices then s.SetSlice(key.peer, Edited(s.slices[key.peer], key.link, link)) else s
  }

  function LinkPrepended(s: State, peer: Peer, link: Link): State {
    s.SetSlice(peer, Prepended(s.SliceOf(peer), link))
  }

  function PageArrived(s: State, peer: Peer, page: seq<Link>, total: int): State {
    var known := if peer in s.slices then Some(s.slices[peer]) else None;
    s.(queues := s.queues - {PageSlot(peer)}).SetSlice(peer, Merged(known, page, total))
  }

  // A reply to a request about links carries at least one.
  predicate Acceptable(request: Request, links: seq<Link>) {
    request.Create? || request.Edit? || request.Revoke? ==> |links| > 0
  }

  function Answered(s: State, id: RequestId, links: seq<Link>, total: int): State
    requires id in s.inFlight && Acceptable(s.inFlight[id], links)
  {
    var request := s.inFlight[id];
    var t := s.(inFlight := s.inFlight - {id});
    match request
    case Create(peer) => LinkPrepended(Finished(t, request.Slot(), Some(links[0])), peer, links[0])
    case Edit(key) => LinkEdited(Finished(t, request.Slot(), Some(links[0])), key, links[0])
    case Revoke(key, mine) =>
      var edited := LinkEdited(Finished(t, request.Slot(), Some(links[0])), key, links[0]);
      if total > 1 && mine then LinkPrepended(edited, key.peer, links[|links| - 1]) else edited
    case Delete(_) => Finished(t, request.Slot(), None)
    case DeleteRevoked(_, _) => Finished(t, request.Slot(), None)
    case FirstPage(peer) => PageArrived(t, peer, links, total)
  }

  // A failed deletion of all revoked links has no handler: its key stays.
  function Failed(s: State, id: RequestId): State
    requires id in s.inFlight
  {
    var t := s.(inFlight := s.inFlight - {id});
    if s.inFlight[id].DeleteRevoked? then t else t.(queues := t.queues - {s.inFlight[id].Slot()})
  }

  // ----- other changes -----

  function ExternallyUpdated(s: State, peer: Peer, updated: Link): State {
    if peer !in s.slices then s
    else s.SetSlice(peer, s.slices[peer].(links := Replaced(s.slices[peer].links, updated)))
  }

  function PermanentSet(s: State, peer: Peer, link: Link): State {
    if !link.permanent then s else s.SetSlice(peer, WithPermanent(s.SliceOf(peer), link))
  }

  function PermanentCleared(s: State, peer: Peer): State {
    if peer !in s.slices then s else s.SetSlice(peer, WithoutPermanent(s.slices[peer]))
  }

  // An approved join request whose link is unknown drops the peer's cache.
  function Pruned(s: State, peer: Peer): State {
    s.(slices := s.slices - {peer})
  }

  // ----- runs -----

  datatype Event =
    | DoRequest(request: Request, withDone: bool)
    | Answer(id: RequestId, links: seq<Link>, total: int)
    | Fail(id: RequestId)
    | Update(peer: Peer, link: Link)
    | SetPermanent(peer: Peer, link: Link)
    | ClearPermanent(peer: Peer)
    | Prune(peer: Peer)

  // Answers and failures of requests that are not in flight do not happen.
  predicate Enabled(s: State, e: Event) {
    match e
    case Answer(id, links, _) => id in s.inFlight && Acceptable(s.inFlight[id], links)
    case Fail(id) => id in s.inFlight
    case _ => true
  }

  function Step(s: State, e: Event): State {
    if !Enabled(s, e) then s
    else
      match e
      case DoRequest(request, withDone) => Requested(s, request, withDone)
      case Answer(id, links, total) => Answered(s, id, links, total)
      case Fail(id) => Failed(s, id)
      case Update(peer, link) => ExternallyUpdated(s, peer, link)
      case SetPermanent(peer, link) => PermanentSet(s, peer, link)
      case ClearPermanent(peer) => PermanentCleared(s, peer)
      case Prune(peer) => Pruned(s, peer)
  }

  function Run(s: State, events: seq<Event>): State
    decreases |events|
  {
    if events == [] then s else Step(Run(s, events[..|events| - 1]), events[|events| - 1])
  }

  lemma OneEvent(e: Event)
    ensures Run(INITIAL, [e]) == Step(INITIAL, e)
  {
    hide Step;
    assert [e][..0] == [];
    assert Run(INITIAL, [e]) == Step(Run(INITIAL, [e][..0]), [e][0]);
  }

  lemma TwoEvents(a: Event, b: Event)
    ensures Run(INITIAL, [a, b]) == Step(Step(INITIAL, a), b)
  {
    hide Step;
    OneEvent(a);
    assert [a, b][..1] == [a];
    assert Run(INITIAL, [a, b]) == Step(Run(INITIAL, [a, b][..1]), [a, b][1]);
  }
}
