// One peer's first slice of invite links and the changes that can happen to it.
module InviteList {
  import opened Wrappers

  type UserId = nat

  datatype Link = Link(
    link: string, labelText: string, admin: UserId, date: int, startDate: int, expireDate: int,
    usageLimit: int, usage: int, requested: int, requestApproval: bool,
    permanent: bool, revoked: bool)
  {
    predicate Active() {
      permanent && !revoked
    }
  }

  // PeerInviteLinks; count is the server's total, which may exceed the links kept here.
  datatype Slice = Slice(links: seq<Link>, count: int) {

    // The first-element test of lookupMyPermanent.
    function LookupMyPermanent(): Option<Link> {
      if |links| > 0 && links[0].Active() then Some(links[0]) else None
    }

    // An active link can be nowhere but in front.
    ghost predicate Clean() {
      forall i :: 0 < i < |links| ==> !links[i].Active()
    }

    ghost predicate Covers() {
      count >= |links|
    }

    function Slack(): int {
      count - |links|
    }

    // The guarded decrement that goes with an erased link.
    function Decremented(): int {
      if count > 0 then count - 1 else count
    }
  }

  const EMPTY := Slice([], 0)

  // In a clean slice the first-element test is a search of the whole list, and what it
  // finds is the only active link.
  lemma LookupIsSearch(s: Slice)
    ensures s.Clean() ==> (s.LookupMyPermanent().Some? <==> exists l :: l in s.links && l.Active())
    ensures s.Clean() ==> forall i :: 0 <= i < |s.links| && s.links[i].Active() ==> s.LookupMyPermanent() == Some(s.links[i])
    ensures !s.Clean() ==> exists i :: 0 < i < |s.links| && s.links[i].Active()
  {
    if s.Clean() && exists l :: l in s.links && l.Active() {
      var l :| l in s.links && l.Active();
      var i :| 0 <= i < |s.links| && s.links[i] == l;
    }
  }

  // ----- the changes -----

  function Prepended(s: Slice, link: Link): Slice {
    var had := s.LookupMyPermanent().Some?;
    if had && link.permanent then Slice([link] + s.links[1..], s.Decremented() + 1)
    else if had then Slice([s.links[0], link] + s.links[1..], s.count + 1)
    else Slice([link] + s.links, s.count + 1)
  }

  // The place of the first link with this name, or the length.
  function IndexOf(links: seq<Link>, name: string): (i: nat)
    ensures i <= |links|
    ensures i < |links| ==> links[i].link == name
    ensures forall j :: 0 <= j < i ==> links[j].link != name
  {
    if links == [] then 0
    else if links[0].link == name then 0
    else 1 + IndexOf(links[1..], name)
  }

  function Edited(s: Slice, name: string, link: Link): Slice {
    var j := IndexOf(s.links, name);
    if j == |s.links| then s
    else if link.revoked && !s.links[j].revoked then
      Slice(s.links[..j] + s.links[j + 1..], s.Decremented())
    else s.(links := s.links[j := link])
  }

  // Every link with the updated name is replaced.
  function Replaced(links: seq<Link>, updated: Link): (r: seq<Link>)
    ensures |r| == |links|
    ensures forall i :: 0 <= i < |links| ==> r[i] == if links[i].link == updated.link then updated else links[i]
  {
    seq(|links|, i requires 0 <= i < |links| => if links[i].link == updated.link then updated else links[i])
  }

  function WithPermanent(s: Slice, link: Link): Slice {
    if !link.permanent then s
    else
      match s.LookupMyPermanent()
      case Some(first) =>
        if first.link == link.link then s.(links := [first.(usage := link.usage)] + s.links[1..])
        else Slice([link] + s.links[1..], s.Decremented())
      case None => s.(links := [link] + s.links)
  }

  function WithoutPermanent(s: Slice): Slice {
    if s.LookupMyPermanent().None? then s
    else Slice(s.links[1..], s.Decremented())
  }

  function Inactive(links: seq<Link>): seq<Link> {
    if links == [] then []
    else Inactive(links[..|links| - 1]) + (if links[|links| - 1].Active() then [] else [links[|links| - 1]])
  }

  function Unnamed(links: seq<Link>, name: string): seq<Link> {
    if links == [] then []
    else Unnamed(links[..|links| - 1], name)
         + (if links[|links| - 1].link == name then [] else [links[|links| - 1]])
  }

  // The place of the first active link, or the length.
  function FirstActive(links: seq<Link>): (i: nat)
    ensures i <= |links|
    ensures i < |links| ==> links[i].Active()
    ensures forall j :: 0 <= j < i ==> !links[j].Active()
  {
    if links == [] then 0
    else if links[0].Active() then 0
    else 1 + FirstActive(links[1..])
  }

  function Moved(links: seq<Link>, i: nat): (r: seq<Link>)
    requires i < |links|
    ensures |r| == |links|
  {
    [links[i]] + links[..i] + links[i + 1..]
  }

  function BroughtToFront(links: seq<Link>): (r: seq<Link>)
    ensures |r| == |links|
  {
    var i := FirstActive(links);
    if i == |links| then links else Moved(links, i)
  }

  // The arrival of a first page.
  function Merged(known: Option<Slice>, page: seq<Link>, total: int): Slice {
    if known.Some? && known.value.LookupMyPermanent().Some? then
      var mine := known.value.links[0];
      var links := [mine] + Inactive(Unnamed(page, mine.link));
      Slice(links, if total > |links| then total else |links|)
    else Slice(BroughtToFront(page), total)
  }

  lemma {:induction false} InactiveElements(links: seq<Link>)
    ensures forall l :: l in Inactive(links) <==> l in links && !l.Active()
  {
    if links != [] {
      var n := |links| - 1;
      InactiveElements(links[..n]);
      assert links == links[..n] + [links[n]];
    }
  }

  // ----- when each change keeps the active link in front -----

  ghost predicate AtMostOneActive(links: seq<Link>) {
    forall i, j :: 0 <= i < j < |links| ==> !links[i].Active() || !links[j].Active()
  }

  lemma PrependKeepsClean(s: Slice, link: Link)
    ensures Prepended(s, link).Clean() <==> s.Clean()
  {
    var p := Prepended(s, link);
    var shift := if s.LookupMyPermanent().Some? && link.permanent then 0 else 1;
    assert forall i :: 0 < i < |s.links| ==> p.links[i + shift] == s.links[i];
    if !s.Clean() {
      var i :| 0 < i < |s.links| && s.links[i].Active();
      assert p.links[i + shift].Active();
    }
    if !p.Clean() {
      var i :| 0 < i < |p.links| && p.links[i].Active();
      assert i - shift > 0 && s.links[i - shift] == p.links[i];
    }
  }

  // An answer to an edit must not make a link active that is not the one in front.
  lemma EditKeepsClean(s: Slice, name: string, link: Link)
    requires s.Clean()
    ensures Edited(s, name, link).Clean() <==>
            !(0 < IndexOf(s.links, name) < |s.links| && link.Active())
  {
    var j := IndexOf(s.links, name);
    if 0 < j < |s.links| && link.Active() {
      assert Edited(s, name, link).links[j].Active();
    }
  }

  lemma UpdateKeepsClean(s: Slice, updated: Link)
    requires s.Clean()
    ensures s.(links := Replaced(s.links, updated)).Clean() <==>
            !(updated.Active() && exists i :: 0 < i < |s.links| && s.links[i].link == updated.link)
  {
    if i :| 0 < i < |s.links| && s.links[i].link == updated.link && updated.Active() {
      assert Replaced(s.links, updated)[i].Active();
    }
  }

  lemma SetKeepsClean(s: Slice, link: Link)
    requires s.Clean()
    ensures WithPermanent(s, link).Clean()
  {
  }

  lemma ClearKeepsClean(s: Slice)
    requires s.Clean()
    ensures WithoutPermanent(s).Clean() && WithoutPermanent(s).LookupMyPermanent().None?
  {
  }

  // A page must have at most one active link, unless one is already known.
  lemma MergeKeepsClean(known: Option<Slice>, page: seq<Link>, total: int)
    requires known.Some? ==> known.value.Clean()
    ensures Merged(known, page, total).Clean() <==>
            (known.Some? && known.value.LookupMyPermanent().Some?) || AtMostOneActive(page)
  {
    var r := Merged(known, page, total).links;
    if known.Some? && known.value.LookupMyPermanent().Some? {
      InactiveElements(Unnamed(page, r[0].link));
      forall i | 0 < i < |r| ensures !r[i].Active() {
        assert r[i] in Inactive(Unnamed(page, r[0].link));
      }
    } else {
      var i := FirstActive(page);
      assert forall j :: i < j < |page| ==> r[j] == page[j];
    }
  }

  // ----- what each change stores -----

  // The front is my permanent link, in terms of its fields.
  predicate HadPermanent(s: Slice) {
    s.links != [] && s.links[0].permanent && !s.links[0].revoked
  }

  function OneLess(count: int): int {
    if count > 0 then count - 1 else count
  }

  lemma LookupByFields(s: Slice)
    ensures s.LookupMyPermanent() == if HadPermanent(s) then Some(s.links[0]) else None
  {
  }

  // A prepended link replaces a permanent one in front if it is permanent, and otherwise
  // comes after that; the count grows by one, but for a replaced link that was counted.
  lemma PrependStores(s: Slice, link: Link)
    ensures var p, had := Prepended(s, link), HadPermanent(s);
            && (had && link.permanent ==>
                  |p.links| == |s.links| && p.links[0] == link && p.count == OneLess(s.count) + 1
                  && forall i :: 0 < i < |s.links| ==> p.links[i] == s.links[i])
            && (had && !link.permanent ==>
                  |p.links| == |s.links| + 1 && p.links[1] == link && p.links[0] == s.links[0] && p.count == s.count + 1
                  && forall i :: 0 < i < |s.links| ==> p.links[i + 1] == s.links[i])
            && (!had ==>
                  |p.links| == |s.links| + 1 && p.links[0] == link && p.count == s.count + 1
                  && forall i :: 0 <= i < |s.links| ==> p.links[i + 1] == s.links[i])
  {
  }

  // The answer to an edit is stored at the first link of that name, unless it newly revokes
  // it: then exactly that link goes, with its count.
  lemma EditStores(s: Slice, name: string, link: Link, j: nat)
    requires j < |s.links| && s.links[j].link == name
    requires forall i :: 0 <= i < j ==> s.links[i].link != name
    ensures var e := Edited(s, name, link);
            if link.revoked && !s.links[j].revoked then
              && |e.links| == |s.links| - 1 && e.count == OneLess(s.count)
              && (forall i :: 0 <= i < j ==> e.links[i] == s.links[i])
              && (forall i :: j <= i < |e.links| ==> e.links[i] == s.links[i + 1])
            else
              && |e.links| == |s.links| && e.count == s.count && e.links[j] == link
              && (forall i :: 0 <= i < |s.links| && i != j ==> e.links[i] == s.links[i])
  {
    assert IndexOf(s.links, name) == j;
  }

  lemma EditOfUnknown(s: Slice, name: string, link: Link)
    requires forall l :: l in s.links ==> l.link != name
    ensures Edited(s, name, link) == s
  {
  }

  // Setting the permanent link: one that is not permanent is ignored; of the known one only
  // the usage is taken over; another one replaces it; the first one is put in front.  Only a
  // replaced link changes the count.
  lemma SetStores(s: Slice, link: Link)
    ensures var w := WithPermanent(s, link);
            if !link.permanent then w == s
            else if HadPermanent(s) then
              && |w.links| == |s.links|
              && (forall i :: 0 < i < |s.links| ==> w.links[i] == s.links[i])
              && (if s.links[0].link == link.link then
                    w.links[0] == s.links[0].(usage := link.usage) && w.count == s.count
                  else w.links[0] == link && w.count == OneLess(s.count))
            else
              && |w.links| == |s.links| + 1 && w.links[0] == link && w.count == s.count
              && (forall i :: 0 <= i < |s.links| ==> w.links[i + 1] == s.links[i])
  {
    LookupByFields(s);
    var w := WithPermanent(s, link);
    if link.permanent {
      if HadPermanent(s) {
        var first := if s.links[0].link == link.link then s.links[0].(usage := link.usage) else link;
        assert w.links == [first] + s.links[1..];
        hide WithPermanent, HadPermanent, Slice.LookupMyPermanent;
        FrontReplaced(s.links, first);
      } else {
        assert w.links == [link] + s.links;
      }
    }
  }

  lemma FrontReplaced(links: seq<Link>, first: Link)
    requires links != []
    ensures var r := [first] + links[1..];
            |r| == |links| && r[0] == first && forall i :: 0 < i < |links| ==> r[i] == links[i]
  {
  }

  lemma ClearStores(s: Slice)
    ensures var c := WithoutPermanent(s);
            if HadPermanent(s) then
              && |c.links| == |s.links| - 1 && c.count == OneLess(s.count)
              && (forall i :: 0 <= i < |c.links| ==> c.links[i] == s.links[i + 1])
            else c == s
  {
  }

  // A first page is stored with the announced total, or with the known permanent link in
  // front and a count of at least the links stored.
  lemma MergeStores(known: Option<Slice>, page: seq<Link>, total: int)
    ensures var m := Merged(known, page, total);
            if known.Some? && HadPermanent(known.value) then
              && m.links != [] && m.links[0] == known.value.links[0]
              && m.links[1..] == Inactive(Unnamed(page, known.value.links[0].link))
              && m.count == (if total > |m.links| then total else |m.links|)
            else m.count == total && m.links == BroughtToFront(page)
  {
  }

  // What the two filters leave, how often, and in which order.
  lemma {:induction false} InactiveExactly(links: seq<Link>, l: Link)
    ensures multiset(Inactive(links))[l] == if l.permanent && !l.revoked then 0 else multiset(links)[l]
  {
    if links != [] {
      var n := |links| - 1;
      InactiveExactly(links[..n], l);
      assert links == links[..n] + [links[n]];
    }
  }

  lemma {:induction false} UnnamedExactly(links: seq<Link>, name: string, l: Link)
    ensures multiset(Unnamed(links, name))[l] == if l.link == name then 0 else multiset(links)[l]
  {
    if links != [] {
      var n := |links| - 1;
      UnnamedExactly(links[..n], name, l);
      assert links == links[..n] + [links[n]];
    }
  }

  lemma {:induction false} UnnamedConcat(a: seq<Link>, b: seq<Link>, name: string)
    ensures Unnamed(a + b, name) == Unnamed(a, name) + Unnamed(b, name)
  {
    if b == [] {
      assert a + b == a;
    } else {
      var n := |b| - 1;
      assert (a + b)[..|a + b| - 1] == a + b[..n] && (a + b)[|a + b| - 1] == b[n];
      UnnamedConcat(a, b[..n], name);
    }
  }

  // ----- counts -----

  // Prepending, answering an edit and clearing never reduce the count below the list any
  // further, although the decrement is guarded.
  lemma PrependKeepsSlack(s: Slice, link: Link)
    ensures Prepended(s, link).Slack() >= s.Slack()
  {
  }

  lemma EditKeepsSlack(s: Slice, name: string, link: Link)
    ensures Edited(s, name, link).Slack() >= s.Slack()
  {
  }

  lemma ClearKeepsSlack(s: Slice)
    ensures WithoutPermanent(s).Slack() >= s.Slack()
  {
  }

  // Setting a permanent link other than the known one adds it without counting it.
  ghost predicate Inserts(s: Slice, link: Link) {
    link.permanent && (s.LookupMyPermanent().Some? ==> s.links[0].link != link.link)
  }

  lemma SetDropsSlack(s: Slice, link: Link)
    requires s.Covers()
    ensures WithPermanent(s, link).Covers() <==> !Inserts(s, link) || s.count > |s.links|
  {
  }

  // ----- pages -----

  lemma {:induction false} InactiveConcat(a: seq<Link>, b: seq<Link>)
    ensures Inactive(a + b) == Inactive(a) + Inactive(b)
  {
    if b == [] {
      assert a + b == a;
    } else {
      var n := |b| - 1;
      assert (a + b)[..|a + b| - 1] == a + b[..n] && (a + b)[|a + b| - 1] == b[n];
      InactiveConcat(a, b[..n]);
    }
  }

  lemma {:induction false} AllInactive(a: seq<Link>)
    requires forall l :: l in a ==> !l.Active()
    ensures Inactive(a) == a
  {
    if a != [] {
      AllInactive(a[..|a| - 1]);
      assert a == a[..|a| - 1] + [a[|a| - 1]];
    }
  }

  lemma OneActive(a: Link)
    requires a.Active()
    ensures Inactive([a]) == []
  {
    assert [a][..0] == [];
  }

  // The first active link comes first, and all other links, active or not, keep their order.
  lemma BroughtToFrontMovesOne(page: seq<Link>, j: nat)
    requires j < |page|
    ensures var i, r := FirstActive(page), BroughtToFront(page);
            if i == |page| then r == page
            else if j == i then r[0] == page[i]
            else r[if j < i then j + 1 else j] == page[j]
  {
    var i := FirstActive(page);
    if i < |page| {
      hide *;
      MovedPlaces(page, i, j);
    }
  }

  lemma MovedPlaces(page: seq<Link>, i: nat, j: nat)
    requires i < |page| && j < |page|
    ensures var r := Moved(page, i);
            if j == i then r[0] == page[i] else r[if j < i then j + 1 else j] == page[j]
  {
  }

  // Bringing the permanent link to the front is a permutation that keeps the list of links
  // that are not active.
  lemma BroughtToFrontIsStable(page: seq<Link>)
    ensures multiset(BroughtToFront(page)) == multiset(page)
    ensures Inactive(BroughtToFront(page)) == Inactive(page)
    ensures (exists l :: l in page && l.Active()) ==> BroughtToFront(page)[0].Active()
  {
    var i := FirstActive(page);
    if i < |page| {
      assert page == page[..i] + [page[i]] + page[i + 1..];
      MovedForward(page[..i], page[i], page[i + 1..]);
    }
  }

  lemma MovedForward(before: seq<Link>, a: Link, after: seq<Link>)
    requires a.Active()
    ensures multiset([a] + before + after) == multiset(before + [a] + after)
    ensures Inactive([a] + before + after) == Inactive(before + [a] + after)
  {
    OneActive(a);
    calc {
      Inactive([a] + before + after);
      { InactiveConcat([a] + before, after); InactiveConcat([a], before); }
      Inactive(before) + Inactive(after);
      { InactiveConcat(before, [a]); InactiveConcat(before + [a], after); }
      Inactive(before + [a] + after);
    }
  }

  // For a page with at most one active link it is the only such list.
  lemma BroughtToFrontIsUnique(page: seq<Link>, r: seq<Link>)
    requires AtMostOneActive(page)
    requires multiset(r) == multiset(page) && Inactive(r) == Inactive(page)
    requires Slice(r, 0).Clean()
    ensures r == BroughtToFront(page)
  {
    var b, i := BroughtToFront(page), FirstActive(page);
    BroughtToFrontIsStable(page);
    MergeKeepsClean(None, page, 0);
    assert |r| == |page| by {
      assert |multiset(r)| == |multiset(page)|;
    }
    if i == |page| {
      forall l | l in r ensures !l.Active() {
        assert l in multiset(r);
      }
      AllInactive(r);
      AllInactive(page);
    } else {
      var a := page[i];
      assert a in multiset(page) && a in multiset(r) && a in r;
      FrontIsActive(r, a);
      FrontIsActive(b, a);
    }
  }

  lemma OnlyFrontIsActive(r: seq<Link>, a: Link)
    requires Slice(r, 0).Clean() && a in r && a.Active()
    ensures r != [] && r[0] == a && forall l :: l in r[1..] ==> !l.Active()
  {
    var k :| 0 <= k < |r| && r[k] == a;
    hide Link.Active;
    assert k == 0;
    assert forall i :: 0 <= i < |r[1..]| ==> r[1..][i] == r[i + 1];
  }

  lemma FrontIsActive(r: seq<Link>, a: Link)
    requires Slice(r, 0).Clean() && a in r && a.Active()
    ensures r == [a] + Inactive(r)
  {
    hide *;
    OnlyFrontIsActive(r, a);
    var rest := r[1..];
    InactiveConcat([a], rest);
    OneActive(a);
    AllInactive(rest);
    assert r == [a] + rest && [] + rest == rest;
  }

  // With a known permanent link the page adds its other inactive links in page order.
  lemma MergedWithKnown(s: Slice, page: seq<Link>, total: int)
    requires s.LookupMyPermanent().Some?
    ensures var m := Merged(Some(s), page, total);
            && m.links[0] == s.links[0]
            && m.links[1..] == Inactive(Unnamed(page, s.links[0].link))
            && m.Covers() && m.count >= total && (m.count == total || m.count == |m.links|)
            && m.LookupMyPermanent() == s.LookupMyPermanent()
  {
  }
}
