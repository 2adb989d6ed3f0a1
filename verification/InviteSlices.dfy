// What every run keeps about the cached slices: where the permanent link is, and counts.
module InviteSlices {
  import opened Wrappers
  import opened InviteList
  import opened InviteProtocol

  ghost predicate AllClean(s: State) {
    forall peer :: peer in s.slices ==> s.slices[peer].Clean()
  }

  function Known(s: State, peer: Peer): Option<Slice> {
    if peer in s.slices then Some(s.slices[peer]) else None
  }

  predicate HasPermanent(s: State, peer: Peer) {
    s.SliceOf(peer).LookupMyPermanent().Some?
  }

  // Replacing the first link of this name would make a link behind the front active.
  predicate ActivatesBehind(s: State, key: LinkKey, link: Link) {
    0 < IndexOf(s.SliceOf(key.peer).links, key.link) < |s.SliceOf(key.peer).links| && link.Active()
  }

  // The events after which the active link is still in front.
  ghost predicate Safe(s: State, e: Event) {
    match e
    case Answer(id, links, _) =>
      (Enabled(s, e) ==>
         match s.inFlight[id]
         case FirstPage(peer) => HasPermanent(s, peer) || AtMostOneActive(links)
         case Edit(key) => !ActivatesBehind(s, key, links[0])
         case Revoke(key, _) => !ActivatesBehind(s, key, links[0])
         case _ => true)
    case Update(peer, link) =>
      !(link.Active() && exists i :: 0 < i < |s.SliceOf(peer).links| && s.SliceOf(peer).links[i].link == link.link)
    case _ => true
  }

  lemma OneSliceChanged(s: State, t: State, peer: Peer, slice: Slice)
    requires AllClean(s) && t.slices == s.slices[peer := slice]
    ensures AllClean(t) <==> slice.Clean()
  {
    assert t.slices[peer] == slice;
  }

  lemma AnswerSlices(s: State, id: RequestId, links: seq<Link>, total: int)
    requires Enabled(s, Answer(id, links, total))
    ensures var t := Answered(s, id, links, total);
            match s.inFlight[id]
            case Create(peer) => t.slices == s.slices[peer := Prepended(s.SliceOf(peer), links[0])]
            case Edit(key) =>
              t.slices == if key.peer in s.slices then s.slices[key.peer := Edited(s.slices[key.peer], key.link, links[0])] else s.slices
            case Revoke(key, mine) =>
              var edited := if key.peer in s.slices then Edited(s.slices[key.peer], key.link, links[0]) else EMPTY;
              if total > 1 && mine then t.slices == s.slices[key.peer := Prepended(edited, links[|links| - 1])]
              else t.slices == if key.peer in s.slices then s.slices[key.peer := edited] else s.slices
            case FirstPage(peer) => t.slices == s.slices[peer := Merged(Known(s, peer), links, total)]
            case _ => t.slices == s.slices
  {
    hide Prepended, Edited, Merged, Calls;
  }

  // The peer whose slice an event may change.
  function PeerOf(s: State, e: Event): Option<Peer> {
    match e
    case Answer(id, _, _) =>
      (if id !in s.inFlight then None
       else
         match s.inFlight[id]
         case Create(peer) => Some(peer)
         case Edit(key) => Some(key.peer)
         case Revoke(key, _) => Some(key.peer)
         case FirstPage(peer) => Some(peer)
         case _ => None)
    case Update(peer, _) => Some(peer)
    case SetPermanent(peer, _) => Some(peer)
    case ClearPermanent(peer) => Some(peer)
    case Prune(peer) => Some(peer)
    case _ => None
  }

  // No event changes the slice of another peer.
  lemma OtherSlicesUntouched(s: State, e: Event, other: Peer)
    requires PeerOf(s, e) != Some(other)
    ensures var t := Step(s, e);
            (other in t.slices <==> other in s.slices) && (other in s.slices ==> t.slices[other] == s.slices[other])
  {
    hide Answered, Replaced, WithPermanent, WithoutPermanent;
    if e.Answer? && Enabled(s, e) {
      AnswerSlices(s, e.id, e.links, e.total);
    }
  }

  // What the events that are not answers do to the slice of their peer: an update replaces
  // the links of its name, setting a permanent link starts a slice if there is none, and
  // pruning drops it.
  lemma OtherEventsStore(s: State, peer: Peer, link: Link)
    ensures var t := Step(s, Update(peer, link));
            (peer in t.slices <==> peer in s.slices)
            && (peer in s.slices ==>
                  t.slices[peer].count == s.slices[peer].count && |t.slices[peer].links| == |s.slices[peer].links|
                  && forall i :: 0 <= i < |s.slices[peer].links| ==>
                       t.slices[peer].links[i] ==
                       if s.slices[peer].links[i].link == link.link then link else s.slices[peer].links[i])
    ensures var t := Step(s, SetPermanent(peer, link));
            (peer in t.slices <==> peer in s.slices || link.permanent)
            && t.SliceOf(peer) == WithPermanent(s.SliceOf(peer), link)
    ensures var t := Step(s, ClearPermanent(peer));
            (peer in t.slices <==> peer in s.slices) && t.SliceOf(peer) == WithoutPermanent(s.SliceOf(peer))
    ensures peer !in Step(s, Prune(peer)).slices
  {
    SetStores(s.SliceOf(peer), link);
    ClearStores(s.SliceOf(peer));
    hide WithPermanent, WithoutPermanent;
  }

  lemma AnswerKeepsClean(s: State, id: RequestId, links: seq<Link>, total: int)
    requires AllClean(s) && Enabled(s, Answer(id, links, total))
    ensures AllClean(Answered(s, id, links, total)) <==> Safe(s, Answer(id, links, total))
  {
    hide Answered, Prepended, Edited, Merged;
    AnswerSlices(s, id, links, total);
    var t := Answered(s, id, links, total);
    match s.inFlight[id]
    case Create(peer) =>
      PrependKeepsClean(s.SliceOf(peer), links[0]);
      OneSliceChanged(s, t, peer, t.slices[peer]);
    case Edit(key) =>
      EditAnswerClean(s, t, key, links[0]);
    case Revoke(key, mine) =>
      if total > 1 && mine {
        var edited := if key.peer in s.slices then Edited(s.slices[key.peer], key.link, links[0]) else EMPTY;
        PrependKeepsClean(edited, links[|links| - 1]);
        if key.peer in s.slices {
          EditKeepsClean(s.slices[key.peer], key.link, links[0]);
        }
        OneSliceChanged(s, t, key.peer, t.slices[key.peer]);
      } else {
        EditAnswerClean(s, t, key, links[0]);
      }
    case FirstPage(peer) =>
      MergeKeepsClean(Known(s, peer), links, total);
      OneSliceChanged(s, t, peer, t.slices[peer]);
    case _ =>
  }

  lemma EditAnswerClean(s: State, t: State, key: LinkKey, link: Link)
    requires AllClean(s)
    requires t.slices == if key.peer in s.slices then s.slices[key.peer := Edited(s.slices[key.peer], key.link, link)] else s.slices
    ensures AllClean(t) <==> !ActivatesBehind(s, key, link)
  {
    hide Edited;
    if key.peer in s.slices {
      EditKeepsClean(s.slices[key.peer], key.link, link);
      OneSliceChanged(s, t, key.peer, t.slices[key.peer]);
    }
  }

  // A step keeps the active link in front exactly when the event is safe.
  lemma StepKeepsClean(s: State, e: Event)
    requires AllClean(s)
    ensures AllClean(Step(s, e)) <==> Safe(s, e)
  {
    hide Answered, Replaced, WithPermanent, WithoutPermanent;
    var t := Step(s, e);
    match e
    case Answer(id, links, total) =>
      if Enabled(s, e) {
        AnswerKeepsClean(s, id, links, total);
      }
    case Update(peer, link) =>
      if peer in s.slices {
        var cached := s.slices[peer];
        assert s.SliceOf(peer) == cached && t.slices[peer] == cached.(links := Replaced(cached.links, link));
        UpdateKeepsClean(cached, link);
        OneSliceChanged(s, t, peer, t.slices[peer]);
      }
    case SetPermanent(peer, link) =>
      if link.permanent {
        SetKeepsClean(s.SliceOf(peer), link);
        OneSliceChanged(s, t, peer, t.slices[peer]);
      }
    case ClearPermanent(peer) =>
      if peer in s.slices {
        ClearKeepsClean(s.slices[peer]);
        OneSliceChanged(s, t, peer, t.slices[peer]);
      }
    case _ =>
  }

  ghost predicate SafeRun(events: seq<Event>)
    decreases |events|
  {
    events == [] ||
    var n := |events| - 1;
    SafeRun(events[..n]) && Safe(Run(INITIAL, events[..n]), events[n])
  }

  ghost predicate CleanThroughout(events: seq<Event>)
    decreases |events|
  {
    AllClean(Run(INITIAL, events)) && (events == [] || CleanThroughout(events[..|events| - 1]))
  }

  // In exactly the runs of safe events the permanent link is always in front.
  lemma {:induction false} CleanExactlyInSafeRuns(events: seq<Event>)
    ensures CleanThroughout(events) <==> SafeRun(events)
    decreases |events|
  {
    assert AllClean(INITIAL);
    hide Step, AllClean, Safe;
    if events != [] {
      var n := |events| - 1;
      CleanExactlyInSafeRuns(events[..n]);
      if CleanThroughout(events[..n]) {
        StepKeepsClean(Run(INITIAL, events[..n]), events[n]);
      }
    }
  }

  // ----- an honest server -----

  // An updated link does not become permanent, and its revocation is final.
  predicate KeepsStatus(cached: Link, updated: Link) {
    (updated.permanent ==> cached.permanent) && (cached.revoked ==> updated.revoked)
  }

  ghost predicate KeepsAllStatus(s: State, peer: Peer, name: string, updated: Link) {
    forall l :: l in s.SliceOf(peer).links && l.link == name ==> KeepsStatus(l, updated)
  }

  ghost predicate Honest(s: State, e: Event) {
    match e
    case Answer(id, links, _) =>
      (Enabled(s, e) ==>
         match s.inFlight[id]
         case FirstPage(_) => AtMostOneActive(links)
         case Edit(key) => KeepsAllStatus(s, key.peer, key.link, links[0])
         case Revoke(key, _) => KeepsAllStatus(s, key.peer, key.link, links[0])
         case _ => true)
    case Update(peer, link) => KeepsAllStatus(s, peer, link.link, link)
    case _ => true
  }

  lemma StatusKept(s: State, peer: Peer, name: string, updated: Link, i: nat)
    requires AllClean(s) && KeepsAllStatus(s, peer, name, updated)
    requires 0 < i < |s.SliceOf(peer).links| && s.SliceOf(peer).links[i].link == name
    ensures !updated.Active()
  {
    var l := s.SliceOf(peer).links[i];
    assert l in s.SliceOf(peer).links && !l.Active();
  }

  lemma HonestIsSafe(s: State, e: Event)
    requires AllClean(s) && Honest(s, e)
    ensures Safe(s, e)
  {
    match e
    case Answer(id, links, _) =>
      if Enabled(s, e) && (s.inFlight[id].Edit? || s.inFlight[id].Revoke?) {
        var key := s.inFlight[id].key;
        var i := IndexOf(s.SliceOf(key.peer).links, key.link);
        if ActivatesBehind(s, key, links[0]) {
          StatusKept(s, key.peer, key.link, links[0], i);
        }
      }
    case Update(peer, link) =>
      if i :| 0 < i < |s.SliceOf(peer).links| && s.SliceOf(peer).links[i].link == link.link {
        StatusKept(s, peer, link.link, link, i);
      }
    case _ =>
  }

  ghost predicate HonestRun(events: seq<Event>)
    decreases |events|
  {
    events == [] ||
    var n := |events| - 1;
    HonestRun(events[..n]) && Honest(Run(INITIAL, events[..n]), events[n])
  }

  // With an honest server, in every run and for every peer, the first-element test finds the
  // permanent link that a search of the whole list would find, and there is only one.
  lemma {:induction false} LookupAlwaysFindsPermanent(events: seq<Event>, peer: Peer)
    requires HonestRun(events)
    ensures AllClean(Run(INITIAL, events))
    ensures var slice := Run(INITIAL, events).SliceOf(peer);
            && (slice.LookupMyPermanent().Some? <==> exists l :: l in slice.links && l.permanent && !l.revoked)
            && forall i :: 0 <= i < |slice.links| && slice.links[i].permanent && !slice.links[i].revoked ==>
                 slice.LookupMyPermanent() == Some(slice.links[i])
    decreases |events|
  {
    hide Step, Honest, Safe;
    if events == [] {
      assert INITIAL.slices == map[];
    } else {
      var n := |events| - 1;
      LookupAlwaysFindsPermanent(events[..n], peer);
      HonestIsSafe(Run(INITIAL, events[..n]), events[n]);
      StepKeepsClean(Run(INITIAL, events[..n]), events[n]);
    }
    LookupIsSearch(Run(INITIAL, events).SliceOf(peer));
  }

  // ----- counts -----

  ghost predicate AllCover(s: State) {
    forall peer :: peer in s.slices ==> s.slices[peer].Covers()
  }

  // The events after which no count is below the number of links kept: not a page that
  // claims fewer links than it has, and not an uncounted permanent link in a full slice.
  ghost predicate Counted(s: State, e: Event) {
    match e
    case Answer(id, links, total) =>
      (Enabled(s, e) && s.inFlight[id].FirstPage? ==> HasPermanent(s, s.inFlight[id].peer) || total >= |links|)
    case SetPermanent(peer, link) =>
      !Inserts(s.SliceOf(peer), link) || s.SliceOf(peer).count > |s.SliceOf(peer).links|
    case _ => true
  }

  lemma OneCountChanged(s: State, t: State, peer: Peer, slice: Slice)
    requires AllCover(s) && t.slices == s.slices[peer := slice]
    ensures AllCover(t) <==> slice.Covers()
  {
    assert t.slices[peer] == slice;
  }

  lemma AnswerKeepsCover(s: State, id: RequestId, links: seq<Link>, total: int)
    requires AllCover(s) && Enabled(s, Answer(id, links, total))
    ensures AllCover(Answered(s, id, links, total)) <==> Counted(s, Answer(id, links, total))
  {
    hide Answered, Prepended, Edited;
    AnswerSlices(s, id, links, total);
    var t, request := Answered(s, id, links, total), s.inFlight[id];
    match request
    case Create(peer) =>
      PrependKeepsSlack(s.SliceOf(peer), links[0]);
      OneCountChanged(s, t, peer, t.slices[peer]);
    case FirstPage(peer) =>
      OneCountChanged(s, t, peer, t.slices[peer]);
    case Edit(key) =>
      EditKeepsSlack(s.SliceOf(key.peer), key.link, links[0]);
      if key.peer in s.slices {
        OneCountChanged(s, t, key.peer, t.slices[key.peer]);
      }
    case Revoke(key, mine) =>
      EditKeepsSlack(s.SliceOf(key.peer), key.link, links[0]);
      var edited := if key.peer in s.slices then Edited(s.slices[key.peer], key.link, links[0]) else EMPTY;
      PrependKeepsSlack(edited, links[|links| - 1]);
      if key.peer in s.slices || (total > 1 && mine) {
        OneCountChanged(s, t, key.peer, t.slices[key.peer]);
      }
    case _ =>
  }

  // A step keeps every count at least the length of its list exactly when it is counted.
  lemma StepKeepsCover(s: State, e: Event)
    requires AllCover(s)
    ensures AllCover(Step(s, e)) <==> Counted(s, e)
  {
    hide Answered, WithPermanent, WithoutPermanent;
    var t := Step(s, e);
    match e
    case Answer(id, links, total) =>
      if Enabled(s, e) {
        AnswerKeepsCover(s, id, links, total);
      }
    case Update(peer, link) =>
      if peer in s.slices {
        OneCountChanged(s, t, peer, t.slices[peer]);
      }
    case SetPermanent(peer, link) =>
      SetDropsSlack(s.SliceOf(peer), link);
      if link.permanent {
        OneCountChanged(s, t, peer, t.slices[peer]);
      }
    case ClearPermanent(peer) =>
      if peer in s.slices {
        ClearKeepsSlack(s.slices[peer]);
        OneCountChanged(s, t, peer, t.slices[peer]);
      }
    case _ =>
  }

  ghost predicate CountedRun(events: seq<Event>)
    decreases |events|
  {
    events == [] ||
    var n := |events| - 1;
    CountedRun(events[..n]) && Counted(Run(INITIAL, events[..n]), events[n])
  }

  ghost predicate CoversThroughout(events: seq<Event>)
    decreases |events|
  {
    AllCover(Run(INITIAL, events)) && (events == [] || CoversThroughout(events[..|events| - 1]))
  }

  lemma {:induction false} CoversExactlyInCountedRuns(events: seq<Event>)
    ensures CoversThroughout(events) <==> CountedRun(events)
    decreases |events|
  {
    assert AllCover(INITIAL);
    hide Step, AllCover, Counted;
    if events != [] {
      var n := |events| - 1;
      CoversExactlyInCountedRuns(events[..n]);
      if CoversThroughout(events[..n]) {
        StepKeepsCover(Run(INITIAL, events[..n]), events[n]);
      }
    }
  }

  // The first permanent link set for a peer without a cache is kept but not counted.
  lemma SetPermanentIsNotCounted(peer: Peer, link: Link)
    requires link.permanent && !link.revoked
    ensures var s := Run(INITIAL, [SetPermanent(peer, link)]);
            s.SliceOf(peer) == Slice([link], 0) && !AllCover(s)
  {
    OneEvent(SetPermanent(peer, link));
    var s := Run(INITIAL, [SetPermanent(peer, link)]);
    assert peer in s.slices && s.slices[peer] == Slice([link], 0);
  }

  // Nor is a link of a first page that announces none.
  lemma FirstPageIsNotCounted(peer: Peer, link: Link)
    ensures var s := Run(INITIAL, [DoRequest(FirstPage(peer), false), Answer(1, [link], 0)]);
            s.SliceOf(peer) == Slice([link], 0) && !AllCover(s)
  {
    var a, b := DoRequest(FirstPage(peer), false), Answer(1, [link], 0);
    TwoEvents(a, b);
    hide Run;
    var s := Step(INITIAL, a);
    assert s.slices == map[] && s.inFlight == map[1 := FirstPage(peer)];
    var t := Step(s, b);
    assert BroughtToFront([link]) == [link];
    assert peer in t.slices && t.slices[peer] == Slice([link], 0);
  }
}
