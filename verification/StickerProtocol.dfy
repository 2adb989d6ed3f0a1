// The requests of sticker-set saves: first the changes of single sets, then one reorder.
// A request completes at most once (done or failed alike), and never after it is cancelled.
module StickerProtocol {
  import opened Wrappers
  import opened StickerTable

  type RequestId = nat

  // The member variables of which there is one for each type of sticker sets.
  datatype PerType<T> = PerType(stickers: T, masks: T, emoji: T) {
    function Get(kind: StickersType): T {
      match kind
      case Stickers => stickers
      case Masks => masks
      case Emoji => emoji
    }

    function Set(kind: StickersType, value: T): (p: PerType<T>)
      ensures forall other: StickersType :: p.Get(other) == if other == kind then value else Get(other)
    {
      match kind
      case Stickers => this.(stickers := value)
      case Masks => this.(masks := value)
      case Emoji => this.(emoji := value)
    }
  }

  // Saves are numbered; a request knows the save it belongs to.
  datatype Request =
    | Change(kind: StickersType, save: nat, setId: SetId, install: bool)
    | Reorder(kind: StickersType, save: nat, order: seq<SetId>)
    | ClearRecent(attached: bool)

  datatype Entry =
    | Started(kind: StickersType, save: nat)
    | Sent(id: RequestId, request: Request)
    | Completed(id: RequestId)

  // orders[n] is the local order of save n, current the latest save of each type.
  datatype State = State(
    pending: PerType<set<RequestId>>,
    reorderId: PerType<RequestId>,
    clearRecentId: RequestId,
    clearRecentAttachedId: RequestId,
    inFlight: map<RequestId, Request>,
    nextId: RequestId,
    current: PerType<Option<nat>>,
    orders: seq<seq<SetId>>,
    log: seq<Entry>)
  {
    function Send(request: Request): State {
      this.(inFlight := inFlight[nextId := request], nextId := nextId + 1, log := log + [Sent(nextId, request)])
    }
  }

  const INITIAL := State(
    PerType({}, {}, {}), PerType(0, 0, 0), 0, 0, map[], 1, PerType(None, None, None), [], [])

  // A new save cancels what the last one of its type left pending, and the requests that
  // clear recent stickers.
  function SaveCancelled(s: State, kind: StickersType): State {
    s.(pending := s.pending.Set(kind, {}), reorderId := s.reorderId.Set(kind, 0),
       inFlight := s.inFlight - s.pending.Get(kind) - {s.reorderId.Get(kind)})
  }

  function ClearRecentCancelled(s: State): State {
    s.(clearRecentId := 0, clearRecentAttachedId := 0,
       inFlight := s.inFlight - {s.clearRecentId} - {s.clearRecentAttachedId})
  }

  function Begun(s: State, kind: StickersType, order: seq<SetId>): State {
    ClearRecentCancelled(SaveCancelled(s, kind)).(
      current := s.current.Set(kind, Some(|s.orders|)), orders := s.orders + [order],
      log := s.log + [Started(kind, |s.orders|)])
  }

  function Changed(s: State, kind: StickersType, setId: SetId, install: bool): State
    requires s.current.Get(kind).Some?
  {
    s.Send(Change(kind, s.current.Get(kind).value, setId, install))
     .(pending := s.pending.Set(kind, s.pending.Get(kind) + {s.nextId}))
  }

  function RecentCleared(s: State, attached: bool): State {
    var t := s.Send(ClearRecent(attached));
    if attached then t.(clearRecentAttachedId := s.nextId) else t.(clearRecentId := s.nextId)
  }

  function OrderOf(s: State, save: nat): seq<SetId> {
    if save < |s.orders| then s.orders[save] else []
  }

  // stickersSaveOrder of a save.
  function OrderSaved(s: State, kind: StickersType, save: nat): State {
    if |OrderOf(s, save)| < 2 then s
    else s.Send(Reorder(kind, save, OrderOf(s, save))).(reorderId := s.reorderId.Set(kind, s.nextId))
  }

  // A save saves its order at once when it changes no set.
  function Finished(s: State, kind: StickersType): State
    requires s.current.Get(kind).Some?
  {
    if s.pending.Get(kind) == {} then OrderSaved(s, kind, s.current.Get(kind).value) else s
  }

  function Taken(s: State, id: RequestId): State
    requires id in s.inFlight
  {
    s.(inFlight := s.inFlight - {id}, log := s.log + [Completed(id)])
  }

  // stickerSetDisenabled, before it looks whether the order can be saved.
  function ChangeTaken(s: State, id: RequestId): State
    requires id in s.inFlight && s.inFlight[id].Change?
  {
    var kind := s.inFlight[id].kind;
    Taken(s, id).(pending := s.pending.Set(kind, s.pending.Get(kind) - {id}))
  }

  function Done(s: State, id: RequestId): State
    requires id in s.inFlight
  {
    match s.inFlight[id]
    case Change(kind, save, _, _) =>
      var t := ChangeTaken(s, id);
      if t.pending.Get(kind) == {} then OrderSaved(t, kind, save) else t
    case Reorder(kind, _, _) => Taken(s, id).(reorderId := s.reorderId.Set(kind, 0))
    case ClearRecent(attached) =>
      if attached then Taken(s, id).(clearRecentAttachedId := 0) else Taken(s, id).(clearRecentId := 0)
  }

  // ----- runs -----

  datatype Order = ChangeSet(setId: SetId, install: bool) | ClearRecentStickers(attached: bool)

  function Ordered(s: State, kind: StickersType, orders: seq<Order>): State
    requires s.current.Get(kind).Some?
    ensures Ordered(s, kind, orders).current == s.current && Ordered(s, kind, orders).orders == s.orders
    decreases |orders|
  {
    if orders == [] then s
    else
      var t := Ordered(s, kind, orders[..|orders| - 1]);
      match orders[|orders| - 1]
      case ChangeSet(setId, install) => Changed(t, kind, setId, install)
      case ClearRecentStickers(attached) => RecentCleared(t, attached)
  }

  // One whole save: it begins, sends its requests, and saves the order if none changes a set.
  function SaveDone(s: State, kind: StickersType, order: seq<SetId>, orders: seq<Order>): State {
    Finished(Ordered(Begun(s, kind, order), kind, orders), kind)
  }

  datatype Event = Save(kind: StickersType, order: seq<SetId>, orders: seq<Order>) | Complete(id: RequestId)

  predicate Enabled(s: State, e: Event) {
    match e
    case Save(_, _, _) => true
    case Complete(id) => id in s.inFlight
  }

  function Step(s: State, e: Event): State {
    if !Enabled(s, e) then s
    else
      match e
      case Save(kind, order, orders) => SaveDone(s, kind, order, orders)
      case Complete(id) => Done(s, id)
  }

  function Run(events: seq<Event>): State
    decreases |events|
  {
    if events == [] then INITIAL else Step(Run(events[..|events| - 1]), events[|events| - 1])
  }

  // ----- what one step does -----

  // A save that begins sends nothing; it takes back the pending requests of its own type and
  // the remembered clearing of recent stickers, and forgets exactly those.
  lemma BegunExactly(s: State, kind: StickersType, order: seq<SetId>)
    ensures var t := Begun(s, kind, order);
            && t.nextId == s.nextId && t.log == s.log + [Started(kind, |s.orders|)]
            && t.orders == s.orders + [order] && t.current.Get(kind) == Some(|s.orders|)
            && t.pending.Get(kind) == {} && t.reorderId.Get(kind) == 0
            && t.clearRecentId == 0 && t.clearRecentAttachedId == 0
            && (forall other: StickersType :: other != kind ==>
                  t.pending.Get(other) == s.pending.Get(other) && t.reorderId.Get(other) == s.reorderId.Get(other)
                  && t.current.Get(other) == s.current.Get(other))
            && (forall id :: id in t.inFlight <==>
                  id in s.inFlight && id !in s.pending.Get(kind) && id != s.reorderId.Get(kind)
                  && id != s.clearRecentId && id != s.clearRecentAttachedId)
            && (forall id :: id in t.inFlight ==> t.inFlight[id] == s.inFlight[id])
  {
  }

  // The request that one order of a save is sent as.
  function RequestOf(kind: StickersType, save: nat, order: Order): Request {
    if order.ChangeSet? then Change(kind, save, order.setId, order.install) else ClearRecent(order.attached)
  }

  // One order more: its request is sent; a change becomes pending, and a clearing of recent
  // stickers is remembered in place of an earlier one of its sort.
  ghost predicate SentAs(before: State, kind: StickersType, save: nat, o: Order, t: State) {
    && t.nextId == before.nextId + 1
    && t.log == before.log + [Sent(before.nextId, RequestOf(kind, save, o))]
    && t.inFlight == before.inFlight[before.nextId := RequestOf(kind, save, o)]
    && (forall other: StickersType :: t.pending.Get(other) ==
          before.pending.Get(other) + (if o.ChangeSet? && other == kind then {before.nextId} else {}))
    && t.clearRecentId == (if o == ClearRecentStickers(false) then before.nextId else before.clearRecentId)
    && t.clearRecentAttachedId == (if o == ClearRecentStickers(true) then before.nextId else before.clearRecentAttachedId)
    && t.reorderId == before.reorderId
  }

  lemma ChangedExactly(s: State, kind: StickersType, setId: SetId, install: bool)
    requires s.current.Get(kind).Some?
    ensures SentAs(s, kind, s.current.Get(kind).value, ChangeSet(setId, install), Changed(s, kind, setId, install))
  {
  }

  lemma ClearedExactly(s: State, kind: StickersType, save: nat, attached: bool)
    ensures SentAs(s, kind, save, ClearRecentStickers(attached), RecentCleared(s, attached))
  {
  }

  lemma OneOrderExactly(s: State, kind: StickersType, orders: seq<Order>)
    requires s.current.Get(kind).Some? && orders != []
    ensures var n := |orders| - 1;
            SentAs(Ordered(s, kind, orders[..n]), kind, s.current.Get(kind).value, orders[n], Ordered(s, kind, orders))
  {
    hide SentAs, Changed, RecentCleared;
    var n := |orders| - 1;
    var before := Ordered(s, kind, orders[..n]);
    match orders[n]
    case ChangeSet(setId, install) => ChangedExactly(before, kind, setId, install);
    case ClearRecentStickers(attached) => ClearedExactly(before, kind, s.current.Get(kind).value, attached);
  }

  // The orders of a save are sent one after the other with consecutive ids.
  lemma {:induction false} OrdersSent(s: State, kind: StickersType, orders: seq<Order>, i: nat)
    requires s.current.Get(kind).Some? && i < |orders|
    ensures var t := Ordered(s, kind, orders);
            && t.nextId == s.nextId + |orders| && |t.log| == |s.log| + |orders|
            && t.log[|s.log| + i] == Sent(s.nextId + i, RequestOf(kind, s.current.Get(kind).value, orders[i]))
    decreases |orders|
  {
    var n := |orders| - 1;
    OneOrderExactly(s, kind, orders);
    if n == 0 {
      assert orders[..0] == [] && Ordered(s, kind, orders[..0]) == s;
    } else {
      OrdersSent(s, kind, orders[..n], if i < n then i else 0);
    }
    hide Ordered, RequestOf;
  }

  // What remembers a request forgets it when it completes.
  lemma CompletedExactly(s: State, id: RequestId)
    requires id in s.inFlight
    ensures var t, request := Done(s, id), s.inFlight[id];
            match request
            case Change(kind, save, _, _) =>
              var last := s.pending.Get(kind) == {id} || s.pending.Get(kind) == {};
              && t.pending.Get(kind) == s.pending.Get(kind) - {id}
              && t.nextId == s.nextId + (if last && |OrderOf(s, save)| >= 2 then 1 else 0)
              && (last && |OrderOf(s, save)| >= 2 ==>
                    t.inFlight == (s.inFlight - {id})[s.nextId := Reorder(kind, save, OrderOf(s, save))]
                    && t.reorderId.Get(kind) == s.nextId)
            case Reorder(kind, _, _) =>
              t == s.(inFlight := s.inFlight - {id}, log := s.log + [Completed(id)], reorderId := s.reorderId.Set(kind, 0))
            case ClearRecent(attached) =>
              t == s.(inFlight := s.inFlight - {id}, log := s.log + [Completed(id)],
                      clearRecentId := if attached then s.clearRecentId else 0,
                      clearRecentAttachedId := if attached then 0 else s.clearRecentAttachedId)
  {
    if s.inFlight[id].Change? {
      var kind := s.inFlight[id].kind;
      assert s.pending.Get(kind) - {id} == {} <==> s.pending.Get(kind) == {id} || s.pending.Get(kind) == {};
    }
  }
}
