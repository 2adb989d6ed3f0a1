// The typing throttle: which activity updates are approved, and which requests are live.
module SendProgress {
  import opened Wrappers

  type RequestId = nat
  type MsgId = int

  datatype ProgressType =
    | Typing | RecordVideo | UploadVideo | RecordVoice | UploadVoice | RecordRound | UploadRound
    | UploadPhoto | UploadFile | ChooseLocation | ChooseContact | ChooseSticker | PlayGame | Speaking

  datatype Peer =
    | User(isSelf: bool, isBot: bool, isSupport: bool, onlineTill: int)
    | Chat
    | Channel(isMegagroup: bool)

  type History = nat  // the identity of a history; its peer's status may change at any time

  datatype Key = Key(history: History, topMsgId: MsgId, kind: ProgressType)

  const CANCEL_TYPING_ACTION_TIMEOUT := 5000
  const SEND_MY_SPEAKING_INTERVAL := 3000
  const SEND_MY_TYPING_INTERVAL := 5000
  const SEND_TYPINGS_TO_OFFLINE_FOR := 30

  function SendEach(key: Key): int {
    if key.kind.Speaking? then SEND_MY_SPEAKING_INTERVAL else SEND_MY_TYPING_INTERVAL
  }

  // Updates that are ignored altogether.
  predicate Ignored(peer: Peer, kind: ProgressType) {
    (peer.User? && peer.isSelf) || (peer.Channel? && !peer.isMegagroup && !kind.Speaking?)
  }

  // Approved updates whose request is not sent.
  predicate SkipRequest(peer: Peer, unixNow: int) {
    match peer
    case User(isSelf, isBot, isSupport, onlineTill) =>
      isSelf || (isBot && !isSupport) ||
      var recently := unixNow - SEND_TYPINGS_TO_OFFLINE_FOR;
      if onlineTill == -2 then false
      else if onlineTill < 0 then -onlineTill < recently
      else onlineTill < recently
    case _ => false
  }

  // An update or a stop that was let through.
  datatype Approval = Approval(key: Key, doing: bool, time: int)

  // sent and approvals record what happened; request number i + 1 is sent[i].
  datatype State = State(
    updated: map<Key, int>, requests: map<Key, RequestId>,
    stopTypingHistory: Option<History>, stopTypingAt: Option<int>,
    inFlight: set<RequestId>, sent: seq<Key>, approvals: seq<Approval>)

  const INITIAL := State(map[], map[], None, None, {}, [], [])

  predicate Approves(updated: map<Key, int>, key: Key, doing: bool, now: int) {
    if doing then key in updated ==> updated[key] <= now + SendEach(key)
    else key in updated && updated[key] > now
  }

  function Decided(s: State, key: Key, doing: bool, now: int): State {
    if !Approves(s.updated, key, doing, now) then s
    else s.(updated := if doing then s.updated[key := now + 2 * SendEach(key)] else s.updated - {key},
            approvals := s.approvals + [Approval(key, doing, now)])
  }

  function Cancelled(s: State, key: Key): State {
    if key in s.requests then
      s.(inFlight := s.inFlight - {s.requests[key]}, requests := s.requests - {key})
    else s
  }

  // A new id does not replace one that is still there; an update has cancelled it before.
  function Sent(s: State, key: Key, peer: Peer, now: int, unixNow: int): State {
    if SkipRequest(peer, unixNow) then s
    else
      var id := |s.sent| + 1;
      var t := s.(sent := s.sent + [key], inFlight := s.inFlight + {id},
                  requests := if key in s.requests then s.requests else s.requests[key := id]);
      if key.kind.Typing? then
        t.(stopTypingHistory := Some(key.history), stopTypingAt := Some(now + CANCEL_TYPING_ACTION_TIMEOUT))
      else t
  }

  function Updated(s: State, key: Key, progress: int, peer: Peer, now: int, unixNow: int): State {
    var doing := progress >= 0;
    if Ignored(peer, key.kind) || !Approves(s.updated, key, doing, now) then s
    else
      var t := Cancelled(Decided(s, key, doing, now), key);
      if doing then Sent(t, key, peer, now, unixNow) else t
  }

  function TypingCancelled(s: State, history: History): State {
    Cancelled(s.(stopTypingAt := None), Key(history, 0, Typing))
  }

  function TimerFired(s: State): State
    requires s.stopTypingHistory.Some?
  {
    TypingCancelled(s.(stopTypingHistory := None, stopTypingAt := None), s.stopTypingHistory.value)
  }

  // requests without the entry that holds this id.
  function Without(requests: map<Key, RequestId>, id: RequestId): map<Key, RequestId> {
    map key | key in requests && requests[key] != id :: requests[key]
  }

  datatype Event =
    | Update(key: Key, progress: int, peer: Peer, now: int, unixNow: int)
    | Cancel(key: Key)
    | CancelTyping(history: History)
    | Timer
    | Done(id: RequestId)
    | Fail(id: RequestId)

  predicate Enabled(s: State, e: Event) {
    match e
    case Timer => s.stopTypingAt.Some?
    case Done(id) => id in s.inFlight
    case Fail(id) => id in s.inFlight
    case _ => true
  }

  // The timer always has a history to stop typing in.
  predicate TimerArmed(s: State) {
    s.stopTypingAt.Some? ==> s.stopTypingHistory.Some?
  }

  // A failed request has no handler.
  function Step(s: State, e: Event): State
    requires TimerArmed(s)
  {
    if !Enabled(s, e) then s
    else
      match e
      case Update(key, progress, peer, now, unixNow) => Updated(s, key, progress, peer, now, unixNow)
      case Cancel(key) => Cancelled(s, key)
      case CancelTyping(history) => TypingCancelled(s, history)
      case Timer => TimerFired(s)
      case Done(id) => s.(inFlight := s.inFlight - {id}, requests := Without(s.requests, id))
      case Fail(id) => s.(inFlight := s.inFlight - {id})
  }

  function Run(events: seq<Event>): (s: State)
    ensures TimerArmed(s)
    decreases |events|
  {
    if events == [] then INITIAL else Step(Run(events[..|events| - 1]), events[|events| - 1])
  }

  // ----- the throttle -----

  // The time of the last approval for a key, unless it was a stop.
  function LastUpdate(approvals: seq<Approval>, key: Key): Option<int> {
    if approvals == [] then None
    else
      var n := |approvals| - 1;
      if approvals[n].key != key then LastUpdate(approvals[..n], key)
      else if approvals[n].doing then Some(approvals[n].time)
      else None
  }

  // What is stored for a key is that time plus two intervals.
  ghost predicate Remembers(s: State) {
    forall key :: (key in s.updated <==> LastUpdate(s.approvals, key).Some?)
                  && (key in s.updated ==> s.updated[key] == LastUpdate(s.approvals, key).value + 2 * SendEach(key))
  }

  // The rule the throttle is meant to follow.
  predicate Rule(last: Option<int>, each: int, doing: bool, now: int) {
    if doing then last.Some? ==> now - last.value >= each
    else last.Some? && now - last.value < 2 * each
  }

  // Two updates of one activity with no stop between them.
  ghost predicate Unstopped(approvals: seq<Approval>, i: int, j: int) {
    && 0 <= i < j < |approvals|
    && approvals[i].key == approvals[j].key && approvals[i].doing && approvals[j].doing
    && forall k :: i < k < j && approvals[k].key == approvals[i].key ==> approvals[k].doing
  }

  // Such updates are an interval apart.
  ghost predicate Spaced(approvals: seq<Approval>) {
    forall i, j :: Unstopped(approvals, i, j) ==>
      approvals[j].time - approvals[i].time >= SendEach(approvals[i].key)
  }

  // The approval that LastUpdate finds.
  lemma {:induction false} LastUpdatePlace(approvals: seq<Approval>, key: Key, i: nat)
    requires i < |approvals| && approvals[i].key == key && approvals[i].doing
    requires forall k :: i < k < |approvals| && approvals[k].key == key ==> approvals[k].doing
    ensures exists m :: i <= m < |approvals| && approvals[m].key == key && approvals[m].doing
                        && LastUpdate(approvals, key) == Some(approvals[m].time)
  {
    var n := |approvals| - 1;
    if approvals[n].key != key {
      LastUpdatePlace(approvals[..n], key, i);
      var m :| i <= m < n && approvals[..n][m].key == key && approvals[..n][m].doing
               && LastUpdate(approvals[..n], key) == Some(approvals[..n][m].time);
      assert approvals[m].key == key && approvals[m].doing;
    } else {
      assert LastUpdate(approvals, key) == Some(approvals[n].time);
    }
  }

  lemma LastOfMore(approvals: seq<Approval>, a: Approval, key: Key)
    ensures LastUpdate(approvals + [a], key) ==
            if key != a.key then LastUpdate(approvals, key) else if a.doing then Some(a.time) else None
  {
    assert (approvals + [a])[..|approvals|] == approvals;
  }

  // An earlier update of the key of a, with no stop since, is an interval old.
  lemma EarlierUpdate(approvals: seq<Approval>, a: Approval, i: nat)
    requires Spaced(approvals) && i < |approvals|
    requires Rule(LastUpdate(approvals, a.key), SendEach(a.key), true, a.time)
    requires approvals[i].key == a.key && approvals[i].doing
    requires forall k :: i < k < |approvals| && approvals[k].key == a.key ==> approvals[k].doing
    ensures a.time - approvals[i].time >= SendEach(a.key)
  {
    LastUpdatePlace(approvals, a.key, i);
    hide LastUpdate;
    var m :| i <= m < |approvals| && approvals[m].key == a.key && approvals[m].doing
             && LastUpdate(approvals, a.key) == Some(approvals[m].time);
    hide SendEach;
    assert i < m ==> Unstopped(approvals, i, m);
    hide Unstopped;
  }

  lemma SpacedMore(approvals: seq<Approval>, a: Approval)
    requires Spaced(approvals)
    requires Rule(LastUpdate(approvals, a.key), SendEach(a.key), a.doing, a.time)
    ensures Spaced(approvals + [a])
  {
    hide LastUpdate, Rule, SendEach;
    var all, n := approvals + [a], |approvals|;
    assert forall k :: 0 <= k < n ==> all[k] == approvals[k];
    forall i, j | Unstopped(all, i, j) ensures all[j].time - all[i].time >= SendEach(all[i].key) {
      if j < n {
        assert Unstopped(approvals, i, j);
      } else {
        EarlierUpdate(approvals, a, i);
      }
    }
  }

  lemma RuleFollowed(s: State, key: Key, doing: bool, now: int)
    requires Remembers(s)
    ensures Approves(s.updated, key, doing, now) <==> Rule(LastUpdate(s.approvals, key), SendEach(key), doing, now)
  {
  }

  lemma DecidedRemembers(s: State, key: Key, doing: bool, now: int)
    requires Remembers(s)
    ensures Remembers(Decided(s, key, doing, now))
  {
    var t := Decided(s, key, doing, now);
    hide LastUpdate, Approves, SendEach;
    if Approves(s.updated, key, doing, now) {
      forall other
        ensures (other in t.updated <==> LastUpdate(t.approvals, other).Some?)
             && (other in t.updated ==> t.updated[other] == LastUpdate(t.approvals, other).value + 2 * SendEach(other))
      {
        LastOfMore(s.approvals, Approval(key, doing, now), other);
      }
    }
  }

  lemma DecidedKeeps(s: State, key: Key, doing: bool, now: int)
    requires Remembers(s) && Spaced(s.approvals)
    ensures Remembers(Decided(s, key, doing, now)) && Spaced(Decided(s, key, doing, now).approvals)
  {
    RuleFollowed(s, key, doing, now);
    DecidedRemembers(s, key, doing, now);
    hide Remembers, Spaced, Rule, LastUpdate, Approves, SendEach;
    if Approves(s.updated, key, doing, now) {
      SpacedMore(s.approvals, Approval(key, doing, now));
    }
  }

  lemma StepKeepsThrottle(s: State, e: Event)
    requires TimerArmed(s) && Remembers(s) && Spaced(s.approvals)
    ensures Remembers(Step(s, e)) && Spaced(Step(s, e).approvals)
  {
    hide Spaced, LastUpdate;
    if e.Update? && !Ignored(e.peer, e.key.kind) {
      DecidedKeeps(s, e.key, e.progress >= 0, e.now);
      SameApprovals(Decided(s, e.key, e.progress >= 0, e.now), Step(s, e));
    } else {
      SameApprovals(s, Step(s, e));
    }
  }

  lemma SameApprovals(s: State, t: State)
    requires Remembers(s) && t.updated == s.updated && t.approvals == s.approvals
    ensures Remembers(t)
  {
  }

  lemma {:induction false} RunThrottles(events: seq<Event>)
    ensures Remembers(Run(events)) && Spaced(Run(events).approvals)
    decreases |events|
  {
    if events != [] {
      hide Step, Remembers, Spaced;
      RunThrottles(events[..|events| - 1]);
      StepKeepsThrottle(Run(events[..|events| - 1]), events[|events| - 1]);
    }
  }

  // In every run an update is approved exactly when its key has no update in force or the
  // last one is at least an interval old, and a stop exactly when the last approved update is
  // less than two intervals old; whatever the clock does.
  lemma DecisionsFollowRule(events: seq<Event>, key: Key, progress: int, peer: Peer, now: int, unixNow: int)
    requires !Ignored(peer, key.kind)
    ensures var s := Run(events);
            var t := Step(s, Update(key, progress, peer, now, unixNow));
            t.approvals ==
              if Rule(LastUpdate(s.approvals, key), SendEach(key), progress >= 0, now)
              then s.approvals + [Approval(key, progress >= 0, now)] else s.approvals
  {
    RunThrottles(events);
    RuleFollowed(Run(events), key, progress >= 0, now);
  }

  // In every run two approved updates of a key with no approved stop between them are at
  // least the send interval apart.
  lemma ApprovedUpdatesSpaced(events: seq<Event>, i: nat, j: nat)
    requires var a := Run(events).approvals;
             i < j < |a| && a[i].key == a[j].key && a[i].doing && a[j].doing
             && forall k :: i < k < j && a[k].key == a[i].key ==> a[k].doing
    ensures var a := Run(events).approvals;
            a[j].time - a[i].time >= SendEach(a[i].key)
  {
    RunThrottles(events);
    assert Unstopped(Run(events).approvals, i, j);
  }

  // Other keys are never affected.
  lemma OtherKeysUntouched(s: State, e: Event, other: Key)
    requires TimerArmed(s) && e.Update? && other != e.key
    ensures var t := Step(s, e);
            && (other in t.updated <==> other in s.updated)
            && (other in s.updated ==> t.updated[other] == s.updated[other])
            && (other in t.requests <==> other in s.requests)
            && (other in s.requests ==> t.requests[other] == s.requests[other])
  {
  }

  // ----- live requests -----

  // Request id is the last one that was sent for key.
  ghost predicate MostRecent(sent: seq<Key>, key: Key, id: RequestId) {
    && 1 <= id <= |sent| && sent[id - 1] == key
    && forall j :: id <= j < |sent| ==> sent[j] != key
  }

  // The map has an entry that holds this id.
  predicate Holds(s: State, id: RequestId) {
    1 <= id <= |s.sent| && s.sent[id - 1] in s.requests && s.requests[s.sent[id - 1]] == id
  }

  // The map holds, for a key, the id of its most recent send; a request in flight is there.
  ghost predicate Live(s: State) {
    && (forall key :: key in s.requests ==> MostRecent(s.sent, key, s.requests[key]))
    && (forall id :: id in s.inFlight ==> Holds(s, id))
  }

  lemma NoIdTwice(s: State, key: Key, other: Key)
    requires Live(s) && key in s.requests && other in s.requests
    requires s.requests[key] == s.requests[other]
    ensures key == other
  {
  }

  lemma OneMoreSent(sent: seq<Key>, key: Key)
    ensures MostRecent(sent + [key], key, |sent| + 1)
    ensures forall other, id :: MostRecent(sent, other, id) && other != key ==> MostRecent(sent + [key], other, id)
  {
    forall other, id | MostRecent(sent, other, id) && other != key
      ensures MostRecent(sent + [key], other, id)
    {
      assert (sent + [key])[id - 1] == sent[id - 1];
    }
  }

  lemma CancelledKeepsLive(s: State, key: Key)
    requires Live(s)
    ensures Live(Cancelled(s, key)) && key !in Cancelled(s, key).requests
  {
    hide MostRecent;
    var t := Cancelled(s, key);
    forall id | id in t.inFlight ensures Holds(t, id) {
      assert Holds(s, id);
    }
  }

  lemma SentKeepsLive(s: State, key: Key, peer: Peer, now: int, unixNow: int)
    requires Live(s) && key !in s.requests
    ensures Live(Sent(s, key, peer, now, unixNow))
  {
    hide SkipRequest, MostRecent;
    var t := Sent(s, key, peer, now, unixNow);
    OneMoreSent(s.sent, key);
    if !SkipRequest(peer, unixNow) {
      forall id | id in t.inFlight ensures Holds(t, id) {
        if id in s.inFlight {
          assert Holds(s, id) && t.sent[id - 1] == s.sent[id - 1];
        }
      }
    }
  }

  lemma WithoutIsOneEntry(s: State, id: RequestId)
    requires Live(s)
    ensures Without(s.requests, id) == if Holds(s, id) then s.requests - {s.sent[id - 1]} else s.requests
  {
    forall key | key in s.requests && s.requests[key] == id
      ensures Holds(s, id) && key == s.sent[id - 1]
    {
      assert MostRecent(s.sent, key, id);
    }
    if Holds(s, id) {
      assert MostRecent(s.sent, s.sent[id - 1], id);
    }
  }

  lemma DoneKeepsLive(s: State, id: RequestId)
    requires Live(s)
    ensures Live(s.(inFlight := s.inFlight - {id}, requests := Without(s.requests, id)))
  {
    hide MostRecent;
    var t := s.(inFlight := s.inFlight - {id}, requests := Without(s.requests, id));
    forall other | other in t.inFlight ensures Holds(t, other) {
      assert Holds(s, other);
    }
  }

  lemma SameLive(s: State, t: State)
    requires Live(s) && t.requests == s.requests && t.sent == s.sent && t.inFlight <= s.inFlight
    ensures Live(t)
  {
    hide MostRecent;
    forall id | id in t.inFlight ensures Holds(t, id) {
      assert Holds(s, id);
    }
  }

  lemma StepKeepsLive(s: State, e: Event)
    requires TimerArmed(s) && Live(s)
    ensures Live(Step(s, e))
  {
    hide Live, Without;
    if !Enabled(s, e) {
      return;
    }
    match e
    case Update(key, progress, peer, now, unixNow) =>
      if !Ignored(peer, key.kind) && Approves(s.updated, key, progress >= 0, now) {
        var t := Decided(s, key, progress >= 0, now);
        SameLive(s, t);
        CancelledKeepsLive(t, key);
        if progress >= 0 {
          SentKeepsLive(Cancelled(t, key), key, peer, now, unixNow);
        }
      }
    case Cancel(key) => CancelledKeepsLive(s, key);
    case CancelTyping(history) =>
      var t := s.(stopTypingAt := None);
      SameLive(s, t);
      CancelledKeepsLive(t, Key(history, 0, Typing));
    case Timer =>
      var t := s.(stopTypingHistory := None, stopTypingAt := None);
      SameLive(s, t);
      CancelledKeepsLive(t, Key(s.stopTypingHistory.value, 0, Typing));
    case Done(id) => DoneKeepsLive(s, id);
    case Fail(id) => SameLive(s, Step(s, e));
  }

  lemma {:induction false} RunKeepsLive(events: seq<Event>)
    ensures Live(Run(events))
    decreases |events|
  {
    if events != [] {
      hide Step, Live;
      RunKeepsLive(events[..|events| - 1]);
      StepKeepsLive(Run(events[..|events| - 1]), events[|events| - 1]);
    }
  }

  // In every run the map holds only most recent sends, and no id twice.
  lemma MapHoldsMostRecentSends(events: seq<Event>, key: Key, other: Key)
    requires key in Run(events).requests
    ensures MostRecent(Run(events).sent, key, Run(events).requests[key])
    ensures var s := Run(events);
            other in s.requests && s.requests[other] == s.requests[key] ==> other == key
  {
    RunKeepsLive(events);
    var s := Run(events);
    if other in s.requests && s.requests[other] == s.requests[key] {
      NoIdTwice(s, key, other);
    }
  }

  // In every run done(id) removes exactly the entry that holds the id, and nothing when the
  // id has been cancelled or replaced by a newer send; a request in flight has its entry.
  lemma DoneRemovesItsEntry(events: seq<Event>, id: RequestId)
    ensures var s := Run(events);
            Without(s.requests, id) == if Holds(s, id) then s.requests - {s.sent[id - 1]} else s.requests
    ensures id in Run(events).inFlight ==> Holds(Run(events), id)
  {
    RunKeepsLive(events);
    WithoutIsOneEntry(Run(events), id);
  }

  // ----- entries without a request -----

  // A failure of request id happened in the run.
  predicate HasFailed(events: seq<Event>, id: RequestId)
    decreases |events|
  {
    events != [] &&
    var n := |events| - 1;
    HasFailed(events[..n], id) || (events[n] == Fail(id) && id in Run(events[..n]).inFlight)
  }

  // The entry of key holds the id of a request that is not in flight.
  predicate Stale(s: State, key: Key) {
    key in s.requests && s.requests[key] !in s.inFlight
  }

  // The events that cancel the request of a key.
  predicate Cancels(s: State, e: Event, key: Key)
    requires TimerArmed(s)
  {
    match e
    case Update(k, progress, peer, now, _) =>
      k == key && !Ignored(peer, k.kind) && Approves(s.updated, k, progress >= 0, now)
    case Cancel(k) => k == key
    case CancelTyping(history) => key == Key(history, 0, Typing)
    case Timer => s.stopTypingAt.Some? && key == Key(s.stopTypingHistory.value, 0, Typing)
    case _ => false
  }

  // The entries that a step leaves: those of a new request, which is in flight, and old ones,
  // which lose their request only by a failure.
  ghost predicate EntryKept(s: State, t: State, key: Key) {
    key in s.requests && key in t.requests && t.requests[key] == s.requests[key]
  }

  ghost predicate SentNow(s: State, t: State, key: Key) {
    key in t.requests && |t.sent| == |s.sent| + 1 && t.requests[key] == |t.sent| && |t.sent| in t.inFlight
  }

  // What a step other than a failure does to entries and requests in flight.
  ghost predicate OnlySends(s: State, t: State) {
    && |s.sent| <= |t.sent|
    && (forall key :: key in t.requests ==> EntryKept(s, t, key) || SentNow(s, t, key))
    && (forall key :: EntryKept(s, t, key) && s.requests[key] in s.inFlight ==> s.requests[key] in t.inFlight)
    && (forall id :: id in t.inFlight ==> id in s.inFlight || id > |s.sent|)
  }

  lemma SameOnlySends(s: State, t: State)
    requires t.requests == s.requests && t.inFlight == s.inFlight && t.sent == s.sent
    ensures OnlySends(s, t)
  {
  }

  lemma CancelledOnlySends(s: State, key: Key)
    requires Live(s)
    ensures OnlySends(s, Cancelled(s, key)) && Cancelled(s, key).sent == s.sent
    ensures key !in Cancelled(s, key).requests
  {
    forall other | other in s.requests && key in s.requests && s.requests[other] == s.requests[key]
      ensures other == key
    {
      NoIdTwice(s, key, other);
    }
    hide Live;
  }

  lemma SentOnlySends(s: State, key: Key, peer: Peer, now: int, unixNow: int)
    requires key !in s.requests
    ensures OnlySends(s, Sent(s, key, peer, now, unixNow))
  {
    hide SkipRequest;
  }

  lemma OnlySendsTogether(s: State, t: State, u: State)
    requires OnlySends(s, t) && OnlySends(t, u) && t.sent == s.sent
    ensures OnlySends(s, u)
  {
  }

  lemma DoneOnlySends(s: State, id: RequestId)
    ensures OnlySends(s, s.(inFlight := s.inFlight - {id}, requests := Without(s.requests, id)))
  {
  }

  lemma StepOnlySends(s: State, e: Event)
    requires TimerArmed(s) && Live(s) && !e.Fail?
    ensures OnlySends(s, Step(s, e))
  {
    hide Live, OnlySends, Without, Cancelled, Sent, Ignored, Approves;
    if !Enabled(s, e) {
      SameOnlySends(s, s);
      return;
    }
    match e
    case Update(key, progress, peer, now, unixNow) =>
      UpdateOnlySends(s, key, progress, peer, now, unixNow);
    case Cancel(key) => CancelledOnlySends(s, key);
    case CancelTyping(history) =>
      CancelTypingOnlySends(s, s.(stopTypingAt := None), history);
    case Timer =>
      CancelTypingOnlySends(s, s.(stopTypingHistory := None, stopTypingAt := None), s.stopTypingHistory.value);
    case Done(id) => DoneOnlySends(s, id);
  }

  lemma CancelTypingOnlySends(s: State, t: State, history: History)
    requires Live(s) && t.requests == s.requests && t.inFlight == s.inFlight && t.sent == s.sent
    ensures OnlySends(s, Cancelled(t, Key(history, 0, Typing)))
  {
    SameLive(s, t);
    hide Live, OnlySends, Cancelled;
    SameOnlySends(s, t);
    CancelledOnlySends(t, Key(history, 0, Typing));
    OnlySendsTogether(s, t, Cancelled(t, Key(history, 0, Typing)));
  }

  lemma UpdateOnlySends(s: State, key: Key, progress: int, peer: Peer, now: int, unixNow: int)
    requires Live(s)
    ensures OnlySends(s, Updated(s, key, progress, peer, now, unixNow))
  {
    var t := Decided(s, key, progress >= 0, now);
    SameLive(s, t);
    SameOnlySends(s, s);
    SameOnlySends(s, t);
    hide Live, OnlySends, Cancelled, Sent, Ignored, Approves;
    var u := Cancelled(t, key);
    CancelledOnlySends(t, key);
    OnlySendsTogether(s, t, u);
    SentOnlySends(u, key, peer, now, unixNow);
    OnlySendsTogether(s, u, Sent(u, key, peer, now, unixNow));
  }

  // In every run the entry of a key has no request in flight exactly when its request failed.
  lemma {:induction false} StaleExactlyAfterFailure(events: seq<Event>)
    ensures forall key :: key in Run(events).requests ==>
              (Stale(Run(events), key) <==> HasFailed(events, Run(events).requests[key]))
    ensures forall id: RequestId :: HasFailed(events, id) ==> id !in Run(events).inFlight && id <= |Run(events).sent|
    decreases |events|
  {
    if events != [] {
      var n := |events| - 1;
      var s, t, e := Run(events[..n]), Run(events), events[n];
      StaleExactlyAfterFailure(events[..n]);
      RunKeepsLive(events[..n]);
      assert t == Step(s, e);
      forall id: RequestId ensures HasFailed(events, id) <==> HasFailed(events[..n], id) || (e == Fail(id) && id in s.inFlight) {
      }
      if e.Fail? {
        FailureStale(s, e.id);
      } else {
        StepOnlySends(s, e);
      }
      hide Run, Step, HasFailed, Live;
      if !e.Fail? {
        forall key | key in t.requests ensures Stale(t, key) <==> HasFailed(events, t.requests[key]) {
          assert EntryKept(s, t, key) || SentNow(s, t, key);
        }
      }
    }
  }

  lemma FailureStale(s: State, id: RequestId)
    requires TimerArmed(s) && Live(s)
    ensures Step(s, Fail(id)).requests == s.requests && Step(s, Fail(id)).sent == s.sent
    ensures Step(s, Fail(id)).inFlight == s.inFlight - {id}
    ensures id in s.inFlight ==> 1 <= id <= |s.sent|
  {
    if id in s.inFlight {
      assert Holds(s, id);
    }
  }

  lemma StaleStep(s: State, e: Event, key: Key)
    requires TimerArmed(s) && Live(s) && Stale(s, key)
    ensures var t := Step(s, e);
            !Cancels(s, e, key) <==> key in t.requests && t.requests[key] == s.requests[key]
    ensures !Cancels(s, e, key) ==> Stale(Step(s, e), key)
  {
    assert MostRecent(s.sent, key, s.requests[key]);
    hide SkipRequest, Ignored, Approves, Live;
  }

  // In every run a stale entry stays as it is exactly until an event cancels its key.
  lemma StaleUntilCancelled(events: seq<Event>, e: Event, key: Key)
    requires Stale(Run(events), key)
    ensures var s := Run(events);
            var t := Step(s, e);
            && (!Cancels(s, e, key) <==> key in t.requests && t.requests[key] == s.requests[key])
            && (!Cancels(s, e, key) ==> Stale(t, key))
  {
    RunKeepsLive(events);
    hide Live, Step, Cancels;
    StaleStep(Run(events), e, key);
  }

  lemma TwoEvents(a: Event, b: Event)
    ensures Run([a]) == Step(INITIAL, a) && Run([a, b]) == Step(Run([a]), b)
  {
    hide Step;
    assert [a][..0] == [] && [a, b][..1] == [a];
    assert Run([a]) == Step(Run([a][..0]), [a][0]);
    assert Run([a, b]) == Step(Run([a, b][..1]), [a, b][1]);
  }

  // Typing in a group chat, which is always sent.
  function TypingIn(history: History, topMsgId: MsgId, now: int): Event {
    Update(Key(history, topMsgId, Typing), 0, Chat, now, 0)
  }

  lemma TypingSent(history: History, topMsgId: MsgId, now: int)
    ensures var key, t := Key(history, topMsgId, Typing), Run([TypingIn(history, topMsgId, now)]);
            && t.requests == map[key := 1] && t.inFlight == {1} && t.sent == [key]
            && t.stopTypingHistory == Some(history) && t.stopTypingAt.Some?
  {
    TwoEvents(TypingIn(history, topMsgId, now), Timer);
  }

  // The smallest example of a stale entry.
  lemma FailedTypingIsStale(history: History, topMsgId: MsgId, now: int)
    ensures Stale(Run([TypingIn(history, topMsgId, now), Fail(1)]), Key(history, topMsgId, Typing))
  {
    TwoEvents(TypingIn(history, topMsgId, now), Fail(1));
    TypingSent(history, topMsgId, now);
  }

  // ----- the timer -----

  // The key of the last typing request that was sent; sending it armed the timer.
  function LastTyping(sent: seq<Key>): (key: Option<Key>)
    ensures key.Some? ==> key.value.kind.Typing?
  {
    if sent == [] then None
    else
      var n := |sent| - 1;
      if sent[n].kind.Typing? then Some(sent[n]) else LastTyping(sent[..n])
  }

  predicate RemembersTyping(s: State) {
    s.stopTypingHistory.Some? ==>
      LastTyping(s.sent).Some? && s.stopTypingHistory.value == LastTyping(s.sent).value.history
  }

  lemma SentRemembersTyping(s: State, key: Key, peer: Peer, now: int, unixNow: int)
    requires RemembersTyping(s)
    ensures RemembersTyping(Sent(s, key, peer, now, unixNow))
  {
    assert (s.sent + [key])[..|s.sent|] == s.sent;
  }

  lemma StepRemembersTyping(s: State, e: Event)
    requires TimerArmed(s) && RemembersTyping(s)
    ensures RemembersTyping(Step(s, e))
  {
    hide LastTyping, Without, Approves, Ignored, SkipRequest;
    if e.Update? {
      var t := Cancelled(Decided(s, e.key, e.progress >= 0, e.now), e.key);
      SentRemembersTyping(t, e.key, e.peer, e.now, e.unixNow);
    }
  }

  lemma {:induction false} RunRemembersTyping(events: seq<Event>)
    ensures RemembersTyping(Run(events))
    decreases |events|
  {
    if events != [] {
      hide Step, RemembersTyping;
      RunRemembersTyping(events[..|events| - 1]);
      StepRemembersTyping(Run(events[..|events| - 1]), events[|events| - 1]);
    }
  }

  // In every run the timer, when it fires, cancels the typing request that armed it exactly
  // when that was not in a topic; it always cancels the one outside topics of that history,
  // and nothing else.
  lemma TimerCancelsOutsideTopics(events: seq<Event>)
    requires Run(events).stopTypingAt.Some?
    ensures var s, t := Run(events), Step(Run(events), Timer);
            && LastTyping(s.sent).Some?
            && var key := LastTyping(s.sent).value;
            && t.requests == s.requests - {Key(key.history, 0, Typing)}
            && t.stopTypingAt == None && t.stopTypingHistory == None
            && (key in s.requests ==> (key !in t.requests <==> key.topMsgId == 0))
            && (key in s.requests && s.requests[key] in s.inFlight ==>
                  (s.requests[key] !in t.inFlight <==> key.topMsgId == 0))
  {
    RunRemembersTyping(events);
    RunKeepsLive(events);
    var s := Run(events);
    hide Run, LastTyping, Live, Step;
    TimerStep(s, LastTyping(s.sent).value);
  }

  lemma TimerStep(s: State, key: Key)
    requires TimerArmed(s) && Live(s) && s.stopTypingAt.Some?
    requires key.history == s.stopTypingHistory.value && key.kind.Typing?
    ensures var t, zero := Step(s, Timer), Key(key.history, 0, Typing);
            && t.requests == s.requests - {zero} && t.stopTypingAt == None && t.stopTypingHistory == None
            && (key in s.requests ==> (key !in t.requests <==> key.topMsgId == 0))
            && (key in s.requests && s.requests[key] in s.inFlight ==>
                  (s.requests[key] !in t.inFlight <==> key.topMsgId == 0))
  {
    var zero := Key(key.history, 0, Typing);
    if zero in s.requests && key in s.requests && s.requests[zero] == s.requests[key] {
      NoIdTwice(s, zero, key);
    }
    hide Live;
    assert zero !in s.requests ==> s.requests - {zero} == s.requests;
  }

  // The smallest example: typing in a topic is still sent and remembered after the timer.
  lemma TopicTypingOutlivesTimer(history: History, topMsgId: MsgId, now: int)
    requires topMsgId != 0
    ensures var s := Run([TypingIn(history, topMsgId, now), Timer]);
            && s.requests == map[Key(history, topMsgId, Typing) := 1] && s.inFlight == {1}
            && s.stopTypingAt.None?
  {
    TwoEvents(TypingIn(history, topMsgId, now), Timer);
    TypingSent(history, topMsgId, now);
  }

  // ----- an update in numbers -----

  // Activity is not shown to oneself, and in a broadcast channel only speaking is.
  predicate Passes(peer: Peer, kind: ProgressType) {
    match peer
    case User(isSelf, _, _, _) => !isSelf
    case Chat => true
    case Channel(isMegagroup) => isMegagroup || kind.Speaking?
  }

  // A bot other than support gets no request, and neither does a user who is known to have
  // been offline for more than 30 seconds; negative times are approximate, -2 is recent.
  predicate Reached(peer: Peer, unixNow: int) {
    match peer
    case User(_, isBot, isSupport, onlineTill) =>
      (!isBot || isSupport) && (onlineTill == -2 || onlineTill >= unixNow - 30 || -onlineTill >= unixNow - 30)
    case _ => true
  }

  // Updates are approved every 3 seconds for speaking and every 5 for anything else; a stop
  // is approved for twice that time.
  predicate InTime(last: Option<int>, kind: ProgressType, doing: bool, now: int) {
    var each := if kind.Speaking? then 3000 else 5000;
    if doing then last.None? || now - last.value >= each else last.Some? && now - last.value < 2 * each
  }

  // In every run: when an update is approved, when a request goes out, and what is then
  // remembered.
  lemma UpdateExactly(events: seq<Event>, key: Key, progress: int, peer: Peer, now: int, unixNow: int)
    ensures var s, doing := Run(events), progress >= 0;
            var t := Step(s, Update(key, progress, peer, now, unixNow));
            var sends := doing && Reached(peer, unixNow);
            if Passes(peer, key.kind) && InTime(LastUpdate(s.approvals, key), key.kind, doing, now) then
              && t.approvals == s.approvals + [Approval(key, doing, now)]
              && t.sent == (if sends then s.sent + [key] else s.sent)
              && (key in t.requests <==> sends)
              && (sends ==> t.requests[key] == |t.sent| && |t.sent| in t.inFlight)
              && (sends && key.kind.Typing? ==>
                    t.stopTypingHistory == Some(key.history) && t.stopTypingAt == Some(now + 5000))
            else t == s
  {
    RunThrottles(events);
    var s := Run(events);
    RuleFollowed(s, key, progress >= 0, now);
    hide Run, LastUpdate, Remembers;
  }

  // A cancel forgets the entry of its key and takes its request back; a typing cancel does so
  // outside topics and stops the timer, whatever history armed it.
  lemma CancelExactly(events: seq<Event>, key: Key)
    ensures var s := Run(events);
            var t, u := Step(s, Cancel(key)), Step(s, CancelTyping(key.history));
            var zero := Key(key.history, 0, Typing);
            && t.requests == s.requests - {key} && t.stopTypingAt == s.stopTypingAt
            && t.inFlight == (if key in s.requests then s.inFlight - {s.requests[key]} else s.inFlight)
            && u.requests == s.requests - {zero} && u.stopTypingAt == None
            && u.inFlight == (if zero in s.requests then s.inFlight - {s.requests[zero]} else s.inFlight)
  {
    var s, zero := Run(events), Key(key.history, 0, Typing);
    hide Run;
    assert key !in s.requests ==> s.requests - {key} == s.requests;
    assert zero !in s.requests ==> s.requests - {zero} == s.requests;
  }

  // ----- the object -----

  class SendProgressManager {
    var updated: map<Key, int>
    var requests: map<Key, RequestId>
    var stopTypingHistory: Option<History>
    var stopTypingAt: Option<int>
    // The sender and the records of what happened.
    var inFlight: set<RequestId>
    var sent: seq<Key>
    var approvals: seq<Approval>

    ghost function View(): State
      reads this
    {
      State(updated, requests, stopTypingHistory, stopTypingAt, inFlight, sent, approvals)
    }

    constructor ()
      ensures View() == INITIAL
    {
      updated, requests, stopTypingHistory, stopTypingAt := map[], map[], None, None;
      inFlight, sent, approvals := {}, [], [];
    }

    // The throttle.
    method Approve(key: Key, doing: bool, now: int) returns (r: bool)
      modifies this`updated, this`approvals
      ensures r == Approves(old(updated), key, doing, now)
      ensures View() == Decided(old(View()), key, doing, now)
    {
      if doing {
        var sendEach := if key.kind.Speaking? then SEND_MY_SPEAKING_INTERVAL else SEND_MY_TYPING_INTERVAL;
        if key !in updated {
          updated := updated[key := now + 2 * sendEach];
        } else if updated[key] > now + sendEach {
          return false;
        } else {
          updated := updated[key := now + 2 * sendEach];
        }
      } else {
        if key !in updated {
          return false;
        } else if updated[key] <= now {
          return false;
        } else {
          updated := updated - {key};
        }
      }
      approvals := approvals + [Approval(key, doing, now)];
      r := true;
    }

    method CancelKey(key: Key)
      modifies this`requests, this`inFlight
      ensures View() == Cancelled(old(View()), key)
    {
      if key in requests {
        inFlight := inFlight - {requests[key]};
        requests := requests - {key};
      }
    }

    method Send(key: Key, peer: Peer, now: int, unixNow: int)
      modifies this
      ensures View() == Sent(old(View()), key, peer, now, unixNow)
    {
      if SkipRequest(peer, unixNow) {
        return;
      }
      var requestId := |sent| + 1;
      sent := sent + [key];
      inFlight := inFlight + {requestId};
      if key !in requests {
        requests := requests[key := requestId];
      }
      if key.kind.Typing? {
        stopTypingHistory := Some(key.history);
        stopTypingAt := Some(now + CANCEL_TYPING_ACTION_TIMEOUT);
      }
    }

    method UpdateKey(key: Key, progress: int, peer: Peer, now: int, unixNow: int)
      modifies this
      ensures View() == Updated(old(View()), key, progress, peer, now, unixNow)
    {
      if Ignored(peer, key.kind) {
        return;
      }
      var doing := progress >= 0;
      var approved := Approve(key, doing, now);
      if approved {
        CancelKey(key);
        if doing {
          Send(key, peer, now, unixNow);
        }
      }
    }

    method CancelTypingIn(history: History)
      modifies this
      ensures View() == TypingCancelled(old(View()), history)
    {
      stopTypingAt := None;
      CancelKey(Key(history, 0, Typing));
    }

    method OnTimer()
      requires TimerArmed(View()) && stopTypingAt.Some?
      modifies this
      ensures View() == TimerFired(old(View()))
    {
      var history := stopTypingHistory.value;
      stopTypingHistory := None;
      CancelTypingIn(history);
    }

    // The scan of done: it stops at the first entry that holds the id.
    method OnDone(requestId: RequestId)
      requires Live(View()) && TimerArmed(View()) && requestId in inFlight
      modifies this`requests, this`inFlight
      ensures View() == Step(old(View()), Done(requestId))
    {
      hide Live;
      inFlight := inFlight - {requestId};
      var rest := requests.Keys;
      while rest != {}
        invariant requests == old(requests)
        invariant rest <= requests.Keys
        invariant forall key :: key in requests && key !in rest ==> requests[key] != requestId
        decreases |rest|
      {
        var key :| key in rest;
        if requests[key] == requestId {
          requests := requests - {key};
          forall other | other in old(requests) && old(requests)[other] == requestId ensures other == key {
            NoIdTwice(old(View()), key, other);
          }
          assert requests == Without(old(requests), requestId);
          return;
        }
        rest := rest - {key};
      }
      assert requests == Without(old(requests), requestId);
    }
  }
}
