// When the first-element test for the permanent link agrees with a search of the list.  It
// may agree although another active link is behind the front, so this is weaker than clean.
module InviteAgreement {
  import opened Wrappers
  import opened InviteList
  import opened InviteProtocol
  import opened InviteSlices

  // What a search of the whole list finds.
  function SearchMyPermanent(s: Slice): Option<Link> {
    var i := FirstActive(s.links);
    if i < |s.links| then Some(s.links[i]) else None
  }

  predicate Agrees(s: Slice) {
    s.LookupMyPermanent() == SearchMyPermanent(s)
  }

  // It disagrees exactly when the front is not active and a later link is; then the test
  // misses every active link.
  lemma AgreesExactly(s: Slice)
    ensures Agrees(s) <==> s.LookupMyPermanent().Some? || s.Clean()
    ensures Agrees(s) <==> (s.LookupMyPermanent().Some? <==> exists l :: l in s.links && l.Active())
  {
    var i := FirstActive(s.links);
    if i < |s.links| {
      assert s.links[i] in s.links;
    }
  }

  // ----- the operations -----

  // No active link is hidden once the front is erased.
  ghost predicate NextShows(s: Slice) {
    |s.links| <= 1 || s.links[1].Active() || forall i :: 1 < i < |s.links| ==> !s.links[i].Active()
  }

  ghost predicate PrependShows(s: Slice, link: Link) {
    if s.LookupMyPermanent().Some? then !(link.permanent && link.revoked) || s.Clean()
    else link.Active() || s.Clean()
  }

  ghost predicate EditShows(s: Slice, name: string, link: Link) {
    var j := IndexOf(s.links, name);
    if j == |s.links| then true
    else if link.revoked && !s.links[j].revoked then j == 0 ==> NextShows(s)
    else if j == 0 then link.Active() || s.Clean()
    else s.LookupMyPermanent().Some? || !link.Active()
  }

  ghost predicate UpdateShows(s: Slice, updated: Link) {
    if s.links == [] then true
    else if s.links[0].link == updated.link then
      updated.Active() || forall i :: 0 < i < |s.links| && s.links[i].Active() ==> s.links[i].link == updated.link
    else
      s.LookupMyPermanent().Some? || !updated.Active()
      || forall i :: 0 < i < |s.links| ==> s.links[i].link != updated.link
  }

  ghost predicate SetShows(s: Slice, link: Link) {
    Inserts(s, link) && s.LookupMyPermanent().Some? && link.revoked ==> s.Clean()
  }

  ghost predicate ClearShows(s: Slice) {
    s.LookupMyPermanent().Some? ==> NextShows(s)
  }

  lemma Hidden(s: Slice)
    ensures Agrees(s) <==> s.LookupMyPermanent().Some? || forall i :: 0 < i < |s.links| ==> !s.links[i].Active()
  {
    AgreesExactly(s);
  }

  lemma PrependAgrees(s: Slice, link: Link)
    ensures Agrees(Prepended(s, link)) <==> PrependShows(s, link)
  {
    AgreesExactly(Prepended(s, link));
    PrependKeepsClean(s, link);
    hide Agrees;
  }

  // After the front is erased.
  lemma EraseAgrees(s: Slice, count: int)
    requires s.links != []
    ensures Agrees(Slice(s.links[1..], count)) <==> NextShows(s)
  {
    var t := Slice(s.links[1..], count);
    Hidden(t);
    hide Agrees;
    assert forall i :: 0 <= i < |t.links| ==> t.links[i] == s.links[i + 1];
    if t.LookupMyPermanent().None? {
      if NextShows(s) {
        assert Agrees(t);
      } else {
        var i :| 1 < i < |s.links| && s.links[i].Active();
        assert t.links[i - 1].Active();
      }
    }
  }

  // After the link at j is replaced.
  lemma ReplaceAgrees(s: Slice, j: nat, link: Link)
    requires Agrees(s) && j < |s.links|
    ensures Agrees(s.(links := s.links[j := link])) <==>
            if j == 0 then link.Active() || s.Clean() else s.LookupMyPermanent().Some? || !link.Active()
  {
    var t := s.(links := s.links[j := link]);
    Hidden(s);
    Hidden(t);
    hide Agrees;
    if j > 0 && link.Active() {
      assert t.links[j].Active();
    }
    if j == 0 && !s.Clean() {
      var i :| 0 < i < |s.links| && s.links[i].Active();
      assert t.links[i].Active();
    }
  }

  // After a link behind the front is erased.
  lemma EraseBehindAgrees(s: Slice, j: nat, count: int)
    requires Agrees(s) && 0 < j < |s.links|
    ensures Agrees(Slice(s.links[..j] + s.links[j + 1..], count))
  {
    var t := Slice(s.links[..j] + s.links[j + 1..], count);
    Hidden(s);
    Hidden(t);
    hide Agrees;
    assert t.links[0] == s.links[0];
    assert forall i :: 0 < i < |t.links| ==> t.links[i] == s.links[if i < j then i else i + 1];
  }

  lemma EditAgrees(s: Slice, name: string, link: Link)
    requires Agrees(s)
    ensures Agrees(Edited(s, name, link)) <==> EditShows(s, name, link)
  {
    var j := IndexOf(s.links, name);
    hide Agrees, NextShows, IndexOf;
    if j < |s.links| {
      if link.revoked && !s.links[j].revoked {
        if j == 0 {
          EraseAgrees(s, s.Decremented());
          assert s.links[..0] + s.links[1..] == s.links[1..];
        } else {
          EraseBehindAgrees(s, j, s.Decremented());
        }
      } else {
        ReplaceAgrees(s, j, link);
      }
    }
  }

  lemma UpdateAgrees(s: Slice, updated: Link)
    requires Agrees(s)
    ensures Agrees(s.(links := Replaced(s.links, updated))) <==> UpdateShows(s, updated)
  {
    var t := s.(links := Replaced(s.links, updated));
    Hidden(s);
    Hidden(t);
    hide Agrees;
    if s.links != [] && t.LookupMyPermanent().None? {
      if !UpdateShows(s, updated) {
        if s.links[0].link == updated.link {
          var i :| 0 < i < |s.links| && s.links[i].Active() && s.links[i].link != updated.link;
          assert t.links[i].Active();
        } else {
          var i :| 0 < i < |s.links| && s.links[i].link == updated.link;
          assert t.links[i].Active();
        }
      }
    }
  }

  lemma SetAgrees(s: Slice, link: Link)
    requires Agrees(s)
    ensures Agrees(WithPermanent(s, link)) <==> SetShows(s, link)
  {
    var t := WithPermanent(s, link);
    Hidden(s);
    Hidden(t);
    hide Agrees;
    if link.permanent {
      if s.LookupMyPermanent().Some? {
        assert forall i :: 0 < i < |s.links| ==> t.links[i] == s.links[i];
      } else {
        assert forall i :: 0 <= i < |s.links| ==> t.links[i + 1] == s.links[i];
      }
    }
  }

  lemma ClearAgrees(s: Slice)
    requires Agrees(s)
    ensures Agrees(WithoutPermanent(s)) <==> ClearShows(s)
  {
    if s.LookupMyPermanent().Some? {
      EraseAgrees(s, s.Decremented());
    }
  }

  // A first page always leads to agreement.
  lemma MergeAgrees(known: Option<Slice>, page: seq<Link>, total: int)
    ensures Agrees(Merged(known, page, total))
  {
    var m := Merged(known, page, total);
    AgreesExactly(m);
    if known.None? || known.value.LookupMyPermanent().None? {
      BroughtToFrontIsStable(page);
      if m.LookupMyPermanent().None? {
        assert FirstActive(page) == |page|;
      }
    }
  }

  // ----- the cache -----

  ghost predicate AllAgree(s: State) {
    forall peer :: peer in s.slices ==> Agrees(s.slices[peer])
  }

  // The events that hide no active link behind a front that is not active.
  ghost predicate Shows(s: State, e: Event) {
    match e
    case Answer(id, links, total) =>
      (Enabled(s, e) ==>
         match s.inFlight[id]
         case Create(peer) => PrependShows(s.SliceOf(peer), links[0])
         case Edit(key) => EditShows(s.SliceOf(key.peer), key.link, links[0])
         case Revoke(key, mine) =>
           if total > 1 && mine then
             PrependShows(Edited(s.SliceOf(key.peer), key.link, links[0]), links[|links| - 1])
           else EditShows(s.SliceOf(key.peer), key.link, links[0])
         case _ => true)
    case Update(peer, link) => UpdateShows(s.SliceOf(peer), link)
    case SetPermanent(peer, link) => SetShows(s.SliceOf(peer), link)
    case ClearPermanent(peer) => ClearShows(s.SliceOf(peer))
    case _ => true
  }

  lemma OneAgreementChanged(s: State, t: State, peer: Peer, slice: Slice)
    requires AllAgree(s) && t.slices == s.slices[peer := slice]
    ensures AllAgree(t) <==> Agrees(slice)
  {
    hide Agrees;
    assert t.slices[peer] == slice;
  }

  lemma NoSlice(s: State, peer: Peer)
    requires AllAgree(s)
    ensures Agrees(s.SliceOf(peer))
    ensures peer !in s.slices ==> s.SliceOf(peer) == EMPTY
  {
  }

  lemma NothingEdited(name: string, link: Link)
    ensures Edited(EMPTY, name, link) == EMPTY && EditShows(EMPTY, name, link)
  {
  }

  lemma EditAnswerAgrees(s: State, t: State, key: LinkKey, link: Link)
    requires AllAgree(s)
    requires t.slices == if key.peer in s.slices then s.slices[key.peer := Edited(s.slices[key.peer], key.link, link)] else s.slices
    ensures AllAgree(t) <==> EditShows(s.SliceOf(key.peer), key.link, link)
  {
    hide Edited, EditShows, Agrees;
    if key.peer in s.slices {
      EditAgrees(s.slices[key.peer], key.link, link);
      OneAgreementChanged(s, t, key.peer, t.slices[key.peer]);
    } else {
      NothingEdited(key.link, link);
    }
  }

  lemma AnswerKeepsAgreement(s: State, id: RequestId, links: seq<Link>, total: int)
    requires AllAgree(s) && Enabled(s, Answer(id, links, total))
    ensures AllAgree(Answered(s, id, links, total)) <==> Shows(s, Answer(id, links, total))
  {
    hide Answered, Prepended, Edited, Merged, AllAgree, Agrees, PrependShows, EditShows;
    AnswerSlices(s, id, links, total);
    var t := Answered(s, id, links, total);
    match s.inFlight[id]
    case Create(peer) =>
      PrependAgrees(s.SliceOf(peer), links[0]);
      OneAgreementChanged(s, t, peer, t.slices[peer]);
    case Edit(key) =>
      EditAnswerAgrees(s, t, key, links[0]);
    case Revoke(key, mine) =>
      if total > 1 && mine {
        NothingEdited(key.link, links[0]);
        PrependAgrees(Edited(s.SliceOf(key.peer), key.link, links[0]), links[|links| - 1]);
        OneAgreementChanged(s, t, key.peer, t.slices[key.peer]);
      } else {
        EditAnswerAgrees(s, t, key, links[0]);
      }
    case FirstPage(peer) =>
      MergeAgrees(Known(s, peer), links, total);
      OneAgreementChanged(s, t, peer, t.slices[peer]);
    case _ => SameAgreement(s, t);
  }

  lemma SameAgreement(s: State, t: State)
    requires forall peer :: peer in t.slices ==> peer in s.slices && t.slices[peer] == s.slices[peer]
    ensures AllAgree(s) ==> AllAgree(t)
  {
  }

  // A step keeps the agreement exactly when its event hides nothing.
  lemma StepKeepsAgreement(s: State, e: Event)
    requires AllAgree(s)
    ensures AllAgree(Step(s, e)) <==> Shows(s, e)
  {
    hide Answered, Replaced, WithPermanent, WithoutPermanent, Agrees, AllAgree;
    hide UpdateShows, SetShows, ClearShows, PrependShows, EditShows;
    var t := Step(s, e);
    match e
    case Answer(id, links, total) =>
      if Enabled(s, e) {
        AnswerKeepsAgreement(s, id, links, total);
      }
    case Update(peer, link) =>
      UpdateStepAgrees(s, peer, link);
    case SetPermanent(peer, link) =>
      SetStepAgrees(s, peer, link);
    case ClearPermanent(peer) =>
      ClearStepAgrees(s, peer);
    case _ => SameAgreement(s, t);
  }

  lemma UpdateStepAgrees(s: State, peer: Peer, link: Link)
    requires AllAgree(s)
    ensures AllAgree(ExternallyUpdated(s, peer, link)) <==> UpdateShows(s.SliceOf(peer), link)
  {
    hide Agrees, Replaced;
    if peer in s.slices {
      UpdateAgrees(s.slices[peer], link);
      OneAgreementChanged(s, ExternallyUpdated(s, peer, link), peer,
                          s.slices[peer].(links := Replaced(s.slices[peer].links, link)));
    }
  }

  lemma SetStepAgrees(s: State, peer: Peer, link: Link)
    requires AllAgree(s)
    ensures AllAgree(PermanentSet(s, peer, link)) <==> SetShows(s.SliceOf(peer), link)
  {
    NoSlice(s, peer);
    hide WithPermanent, Agrees;
    if link.permanent {
      SetAgrees(s.SliceOf(peer), link);
      OneAgreementChanged(s, PermanentSet(s, peer, link), peer, WithPermanent(s.SliceOf(peer), link));
    }
  }

  lemma ClearStepAgrees(s: State, peer: Peer)
    requires AllAgree(s)
    ensures AllAgree(PermanentCleared(s, peer)) <==> ClearShows(s.SliceOf(peer))
  {
    hide WithoutPermanent, Agrees;
    if peer in s.slices {
      ClearAgrees(s.slices[peer]);
      OneAgreementChanged(s, PermanentCleared(s, peer), peer, WithoutPermanent(s.slices[peer]));
    }
  }

  ghost predicate ShowingRun(events: seq<Event>)
    decreases |events|
  {
    events == [] ||
    var n := |events| - 1;
    ShowingRun(events[..n]) && Shows(Run(INITIAL, events[..n]), events[n])
  }

  ghost predicate AgreesThroughout(events: seq<Event>)
    decreases |events|
  {
    AllAgree(Run(INITIAL, events)) && (events == [] || AgreesThroughout(events[..|events| - 1]))
  }

  // In exactly the runs of such events the first-element test always agrees with a search.
  lemma {:induction false} AgreesExactlyInShowingRuns(events: seq<Event>)
    ensures AgreesThroughout(events) <==> ShowingRun(events)
    decreases |events|
  {
    assert AllAgree(INITIAL);
    hide Step, AllAgree, Shows;
    if events != [] {
      var n := |events| - 1;
      AgreesExactlyInShowingRuns(events[..n]);
      if AgreesThroughout(events[..n]) {
        StepKeepsAgreement(Run(INITIAL, events[..n]), events[n]);
      }
    }
  }

  // It is the weaker property: a first page with two active links is not safe, and shows.
  lemma AgreesThoughNotClean(peer: Peer, a: Link, b: Link)
    requires a.Active() && b.Active()
    ensures var events := [DoRequest(FirstPage(peer), false), Answer(1, [a, b], 2)];
            AgreesThroughout(events) && !SafeRun(events)
  {
    var first, page := DoRequest(FirstPage(peer), false), [a, b];
    var events := [first, Answer(1, page, 2)];
    var s := Run(INITIAL, [first]);
    FirstPageRequested(peer);
    assert page[0].Active() && page[1].Active() && !AtMostOneActive(page);
    assert events[..1] == [first] && [first][..0] == [];
    AgreesExactlyInShowingRuns(events);
    assert ShowingRun([]) && Shows(INITIAL, first);
    assert ShowingRun([first]);
    hide Step, AllAgree;
    assert Shows(s, events[1]) && !Safe(s, events[1]);
  }

  lemma FirstPageRequested(peer: Peer)
    ensures var s := Run(INITIAL, [DoRequest(FirstPage(peer), false)]);
            s.inFlight == map[1 := FirstPage(peer)] && s.slices == map[]
  {
    OneEvent(DoRequest(FirstPage(peer), false));
  }
}
