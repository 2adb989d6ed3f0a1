// Forwarding a draft in several requests.  The intention is one request for each maximal run
// of messages from one chat.  The code never empties the list of ids between requests, so
// each request repeats the messages of all earlier runs under the chat of its own.
module Forward {

  type Peer = nat
  type MessageId = int

  datatype Item = Item(id: MessageId, peer: Peer)

  function Ids(items: seq<Item>): (ids: seq<MessageId>)
    ensures |ids| == |items|
  {
    seq(|items|, i requires 0 <= i < |items| => items[i].id)
  }

  // One forwardMessages request: message ids and the chat they are taken from.
  datatype Request = Request(from: Peer, ids: seq<MessageId>) {
    function Items(): (items: seq<Item>)
      ensures |items| == |ids|
      ensures forall i :: 0 <= i < |ids| ==> items[i] == Item(ids[i], from)
    {
      seq(|ids|, i requires 0 <= i < |ids| => Item(ids[i], from))
    }
  }

  function Forwarded(requests: seq<Request>): seq<Item> {
    if requests == [] then []
    else Forwarded(requests[..|requests| - 1]) + requests[|requests| - 1].Items()
  }

  // ----- what is intended -----

  ghost predicate Separated(requests: seq<Request>) {
    && (forall r :: r in requests ==> r.ids != [])
    && (forall i :: 0 < i < |requests| ==> requests[i - 1].from != requests[i].from)
  }

  // The requests forward the items in order, each from its own chat, in runs that are not
  // empty and cannot be longer.
  ghost predicate Splits(requests: seq<Request>, items: seq<Item>) {
    Forwarded(requests) == items && Separated(requests)
  }

  // One more item continues the last run or opens another.
  function Extended(runs: seq<Request>, item: Item): (more: seq<Request>)
    ensures |runs| <= |more| && more != [] && more[|more| - 1].from == item.peer
  {
    var n := |runs| - 1;
    if runs != [] && runs[n].from == item.peer then runs[..n] + [Request(item.peer, runs[n].ids + [item.id])]
    else runs + [Request(item.peer, [item.id])]
  }

  // The maximal runs of the items.
  function Runs(items: seq<Item>): seq<Request> {
    if items == [] then [] else Extended(Runs(items[..|items| - 1]), items[|items| - 1])
  }

  lemma OneMoreItem(items: seq<Item>, item: Item)
    ensures Runs(items + [item]) == Extended(Runs(items), item)
  {
    hide Extended;
    assert (items + [item])[..|items|] == items;
  }

  lemma OneMoreRequest(requests: seq<Request>, r: Request)
    ensures Forwarded(requests + [r]) == Forwarded(requests) + r.Items()
  {
    assert (requests + [r])[..|requests|] == requests;
  }

  lemma LongerRequest(front: seq<Request>, from: Peer, ids: seq<MessageId>, id: MessageId)
    ensures Forwarded(front + [Request(from, ids + [id])]) == Forwarded(front + [Request(from, ids)]) + [Item(id, from)]
  {
    OneMoreRequest(front, Request(from, ids + [id]));
    OneMoreRequest(front, Request(from, ids));
    assert Request(from, ids + [id]).Items() == Request(from, ids).Items() + [Item(id, from)];
  }

  lemma ExtendedForwards(runs: seq<Request>, item: Item)
    ensures Forwarded(Extended(runs, item)) == Forwarded(runs) + [item]
  {
    var n := |runs| - 1;
    if runs != [] && runs[n].from == item.peer {
      LongerRequest(runs[..n], item.peer, runs[n].ids, item.id);
      assert runs == runs[..n] + [Request(item.peer, runs[n].ids)];
    } else {
      OneMoreRequest(runs, Request(item.peer, [item.id]));
      assert Request(item.peer, [item.id]).Items() == [item];
    }
  }

  lemma ExtendedSeparated(runs: seq<Request>, item: Item)
    requires Separated(runs)
    ensures Separated(Extended(runs, item))
  {
    var n, more := |runs| - 1, Extended(runs, item);
    forall r | r in more ensures r.ids != [] {
      var i :| 0 <= i < |more| && more[i] == r;
      if i < |more| - 1 {
        assert r == runs[i] && runs[i] in runs;
      }
    }
  }

  lemma {:induction false} RunsSplit(items: seq<Item>)
    ensures Splits(Runs(items), items)
    ensures items != [] ==> Runs(items) != [] && Runs(items)[|Runs(items)| - 1].from == items[|items| - 1].peer
  {
    hide Extended, Separated;
    if items == [] {
      NothingSeparated();
    } else {
      var front, item := items[..|items| - 1], items[|items| - 1];
      RunsSplit(front);
      ExtendedForwards(Runs(front), item);
      ExtendedSeparated(Runs(front), item);
      assert items == front + [item];
    }
  }

  lemma NothingSeparated()
    ensures Separated([])
  {
  }

  // The items of the last request are the last items.
  lemma ItemOfLast(requests: seq<Request>, items: seq<Item>, k: nat)
    requires Splits(requests, items) && requests != []
    requires |items| - |requests[|requests| - 1].ids| <= k < |items|
    ensures items[k].peer == requests[|requests| - 1].from
  {
    var last := requests[|requests| - 1];
    assert items[k] == last.Items()[k - (|items| - |last.ids|)];
  }

  // Before them comes an item of another chat, if there is any.
  lemma ItemBeforeLast(requests: seq<Request>, items: seq<Item>)
    requires Splits(requests, items) && requests != []
    requires |items| > |requests[|requests| - 1].ids|
    ensures var last := requests[|requests| - 1];
            items[|items| - |last.ids| - 1].peer != last.from
  {
    var n := |requests| - 1;
    var front := requests[..n];
    assert |Forwarded(front)| == |items| - |requests[n].ids| > 0;
    assert front != [];
    var z := front[n - 1];
    assert z in requests && requests[n - 1] == z && requests[n - 1].from != requests[n].from;
    var k := |items| - |requests[n].ids| - 1;
    assert items[k] == Forwarded(front)[k] == z.Items()[|z.ids| - 1];
  }

  // A longer last run in one split would join two requests of the other.
  lemma LastRunsEqual(a: seq<Request>, b: seq<Request>, items: seq<Item>)
    requires Splits(a, items) && Splits(b, items) && a != [] && b != []
    ensures |b[|b| - 1].ids| <= |a[|a| - 1].ids|
    ensures a[|a| - 1].from == b[|b| - 1].from
  {
    var x, y, n := a[|a| - 1], b[|b| - 1], |items|;
    assert x in a && y in b;
    ItemOfLast(a, items, n - 1);
    ItemOfLast(b, items, n - 1);
    if |y.ids| > |x.ids| {
      ItemOfLast(b, items, n - |x.ids| - 1);
      ItemBeforeLast(a, items);
    }
  }

  // There is only one way to split: the runs are maximal.
  lemma {:induction false} SplitIsUnique(a: seq<Request>, b: seq<Request>, items: seq<Item>)
    requires Splits(a, items) && Splits(b, items)
    ensures a == b
  {
    if a == [] {
      NoItems(b);
    } else if b == [] {
      NoItems(a);
    } else {
      LastRunsEqual(a, b, items);
      LastRunsEqual(b, a, items);
      var x, y := a[|a| - 1], b[|b| - 1];
      var front := items[..|items| - |x.ids|];
      assert x.Items() == items[|front|..] == y.Items();
      forall i | 0 <= i < |x.ids| ensures x.ids[i] == y.ids[i] {
        assert x.Items()[i].id == y.Items()[i].id;
      }
      assert x == y;
      assert Splits(a[..|a| - 1], front) && Splits(b[..|b| - 1], front);
      SplitIsUnique(a[..|a| - 1], b[..|b| - 1], front);
      assert a == a[..|a| - 1] + [x] && b == b[..|b| - 1] + [y];
    }
  }

  lemma SomethingForwarded(requests: seq<Request>)
    requires requests != [] && Separated(requests)
    ensures |Forwarded(requests)| > 0
  {
    var r := requests[|requests| - 1];
    assert r in requests;
  }

  lemma NoItems(requests: seq<Request>)
    requires Splits(requests, [])
    ensures requests == []
  {
    if requests != [] {
      SomethingForwarded(requests);
    }
  }

  // ----- what is sent -----

  // A request for each run, with the ids of that run and of all runs before it.
  function Cumulated(runs: seq<Request>): (sent: seq<Request>)
    ensures |sent| == |runs|
  {
    if runs == [] then []
    else
      var n := |runs| - 1;
      Cumulated(runs[..n]) + [Request(runs[n].from, Ids(Forwarded(runs)))]
  }

  lemma OneMoreCumulated(runs: seq<Request>, r: Request)
    ensures Cumulated(runs + [r]) == Cumulated(runs) + [Request(r.from, Ids(Forwarded(runs + [r])))]
  {
    assert (runs + [r])[..|runs|] == runs;
  }

  // After some items: what has been sent, and the chat of the run that is open.  The ids are
  // those of all items so far.
  ghost predicate Accumulated(sent: seq<Request>, from: Peer, ids: seq<MessageId>, done: seq<Item>) {
    var runs := Runs(done);
    && ids == Ids(done)
    && if runs == [] then sent == []
       else runs[|runs| - 1].from == from && sent == Cumulated(runs[..|runs| - 1])
  }

  lemma NothingAccumulated(from: Peer)
    ensures Accumulated([], from, [], [])
  {
  }

  lemma SendKeeps(sent: seq<Request>, from: Peer, ids: seq<MessageId>, done: seq<Item>)
    requires Accumulated(sent, from, ids, done) && done != []
    ensures sent + [Request(from, ids)] == Cumulated(Runs(done))
  {
    RunsSplit(done);
    hide Runs, Ids, Forwarded;
  }

  lemma PushKeeps(sent: seq<Request>, from: Peer, ids: seq<MessageId>, done: seq<Item>, item: Item)
    requires Accumulated(sent, from, ids, done) && (done != [] ==> from == item.peer)
    ensures Accumulated(sent, item.peer, ids + [item.id], done + [item])
  {
    RunsSplit(done);
    NothingRuns();
    OneMoreItem(done, item);
    var runs, more := Runs(done), Runs(done + [item]);
    hide Runs, Cumulated, Splits;
    if runs == [] {
      assert more[..|more| - 1] == [];
      NothingCumulated();
    } else {
      assert more[..|more| - 1] == runs[..|runs| - 1];
    }
    hide Extended;
    assert Ids(done + [item]) == Ids(done) + [item.id];
  }

  lemma NothingRuns()
    ensures Runs([]) == []
  {
  }

  lemma NothingCumulated()
    ensures Cumulated([]) == []
  {
  }

  lemma OpenKeeps(sent: seq<Request>, done: seq<Item>, item: Item)
    requires done != [] && sent == Cumulated(Runs(done)) && done[|done| - 1].peer != item.peer
    ensures Accumulated(sent, item.peer, Ids(done) + [item.id], done + [item])
  {
    RunsSplit(done);
    OneMoreItem(done, item);
    var runs, more := Runs(done), Runs(done + [item]);
    hide Runs, Cumulated, Splits;
    assert more[..|more| - 1] == runs;
    hide Extended;
    assert Ids(done + [item]) == Ids(done) + [item.id];
  }

  lemma OpenRun(sent: seq<Request>, from: Peer, ids: seq<MessageId>, done: seq<Item>)
    requires Accumulated(sent, from, ids, done) && done != []
    ensures from == done[|done| - 1].peer && ids == Ids(done)
  {
    RunsSplit(done);
  }

  // One turn of the loop, with and without sending.
  lemma TurnKeeps(sent: seq<Request>, from: Peer, ids: seq<MessageId>, items: seq<Item>, i: nat)
    requires i < |items| && Accumulated(sent, from, ids, items[..i]) && (i == 0 ==> from == items[0].peer)
    ensures if from == items[i].peer then Accumulated(sent, from, ids + [items[i].id], items[..i + 1])
            else Accumulated(sent + [Request(from, ids)], items[i].peer, ids + [items[i].id], items[..i + 1])
  {
    hide *;
    var done, item := items[..i], items[i];
    assert items[..i + 1] == done + [item];
    if from == item.peer {
      PushKeeps(sent, from, ids, done, item);
    } else {
      OpenRun(sent, from, ids, done);
      SendKeeps(sent, from, ids, done);
      OpenKeeps(sent + [Request(from, ids)], done, item);
    }
  }

  // The loop of forwardMessages: sending leaves ids as they are.  With a success callback
  // requestsLeft counts the requests.
  method ForwardMessages(items: seq<Item>, shared: bool) returns (sent: seq<Request>, requestsLeft: nat)
    requires items != []
    ensures sent == Cumulated(Runs(items))
    ensures requestsLeft == if shared then |sent| else 0
  {
    sent, requestsLeft := [], 0;
    var forwardFrom, ids := items[0].peer, [];
    var i := 0;
    NothingAccumulated(forwardFrom);
    assert items[..0] == [];
    hide *;
    while i < |items|
      invariant 0 <= i <= |items|
      invariant Accumulated(sent, forwardFrom, ids, items[..i])
      invariant i == 0 ==> forwardFrom == items[0].peer
      invariant requestsLeft == if shared then |sent| else 0
    {
      TurnKeeps(sent, forwardFrom, ids, items, i);
      var newFrom := items[i].peer;
      if forwardFrom != newFrom {
        sent, requestsLeft := sent + [Request(forwardFrom, ids)], requestsLeft + (if shared then 1 else 0);
        forwardFrom := newFrom;
      }
      ids := ids + [items[i].id];
      i := i + 1;
    }
    assert items[..i] == items;
    SendKeeps(sent, forwardFrom, ids, items);
    sent, requestsLeft := sent + [Request(forwardFrom, ids)], requestsLeft + (if shared then 1 else 0);
  }

  // ----- what that means -----

  // Where run i lies in the items of all runs.
  ghost predicate Placed(runs: seq<Request>, i: nat)
    requires i < |runs|
  {
    var items, m, n := Forwarded(runs), |Forwarded(runs[..i])|, |Forwarded(runs[..i + 1])|;
    && m < n <= |items| && Forwarded(runs[..i + 1]) == items[..n]
    && (forall k :: m <= k < n ==> items[k].peer == runs[i].from)
    && (i + 1 == |runs| ==> n == |items|)
    && (i + 1 < |runs| ==> n < |items| && items[n].peer == runs[i + 1].from)
  }

  lemma LastPlaced(front: seq<Request>, r: Request)
    requires r.ids != []
    ensures Placed(front + [r], |front|)
  {
    var runs := front + [r];
    OneMoreRequest(front, r);
    assert runs[..|front|] == front && runs[..|front| + 1] == runs;
    hide Forwarded;
    var items, tail := Forwarded(runs), r.Items();
    assert items == Forwarded(front) + tail;
    assert forall k :: |Forwarded(front)| <= k < |items| ==> items[k] == tail[k - |Forwarded(front)|];
  }

  lemma EarlierPlaced(front: seq<Request>, r: Request, i: nat)
    requires r.ids != [] && i < |front| && Placed(front, i)
    ensures Placed(front + [r], i)
  {
    var runs := front + [r];
    OneMoreRequest(front, r);
    assert runs[..i] == front[..i] && runs[..i + 1] == front[..i + 1];
    if i + 1 == |front| {
      assert front[..i + 1] == front;
    }
    hide Forwarded;
    assert Forwarded(runs) == Forwarded(front) + r.Items();
  }

  lemma {:induction false} RunPlace(runs: seq<Request>, i: nat)
    requires Separated(runs) && i < |runs|
    ensures Placed(runs, i)
  {
    hide Placed;
    var front, r := runs[..|runs| - 1], runs[|runs| - 1];
    assert r in runs && runs == front + [r];
    if i == |front| {
      LastPlaced(front, r);
    } else {
      assert Separated(front);
      RunPlace(front, i);
      EarlierPlaced(front, r, i);
    }
  }

  lemma {:induction false} CumulatedAt(runs: seq<Request>, i: nat)
    requires i < |runs|
    ensures Cumulated(runs)[i] == Request(runs[i].from, Ids(Forwarded(runs[..i + 1])))
  {
    hide Forwarded, Ids;
    var last := |runs| - 1;
    if i == last {
      assert runs[..i + 1] == runs;
    } else {
      CumulatedAt(runs[..last], i);
      assert runs[..last][..i + 1] == runs[..i + 1];
    }
  }

  // Request i has the ids of a prefix of the draft that ends with a maximal run of its chat:
  // every message goes out with its own run and again with each later one.
  lemma EachRequestIsAPrefix(items: seq<Item>, i: nat)
    requires items != [] && i < |Cumulated(Runs(items))|
    ensures var sent := Cumulated(Runs(items));
            var n, m := |sent[i].ids|, if i == 0 then 0 else |sent[i - 1].ids|;
            && m < n <= |items| && sent[i].ids == Ids(items[..n])
            && (forall k :: m <= k < n ==> items[k].peer == sent[i].from)
            && (n < |items| <==> i + 1 < |sent|)
            && (n < |items| ==> items[n].peer == sent[i + 1].from != sent[i].from)
  {
    hide Runs, Cumulated, Forwarded, Ids;
    var runs := Runs(items);
    RunsSplit(items);
    RequestAt(items, i);
    RunPlace(runs, i);
    if i + 1 < |runs| {
      RequestAt(items, i + 1);
      assert runs[i].from != runs[i + 1].from;
    }
    if i > 0 {
      RequestAt(items, i - 1);
    } else {
      NoneForwarded(runs[..0]);
    }
  }

  lemma NoneForwarded(requests: seq<Request>)
    requires requests == []
    ensures Forwarded(requests) == []
  {
  }

  lemma RequestAt(items: seq<Item>, i: nat)
    requires i < |Runs(items)|
    ensures var runs, r := Runs(items), Cumulated(Runs(items))[i];
            && r.from == runs[i].from && |r.ids| == |Forwarded(runs[..i + 1])| <= |items|
            && r.ids == Ids(items[..|r.ids|])
  {
    hide Runs, Cumulated, Forwarded;
    RunsSplit(items);
    RunPlace(Runs(items), i);
    CumulatedAt(Runs(items), i);
  }

  predicate OneChat(items: seq<Item>) {
    forall i :: 0 <= i < |items| ==> items[i].peer == items[0].peer
  }

  lemma OneMoreInChat(front: seq<Item>, item: Item)
    requires front != []
    ensures OneChat(front + [item]) <==> OneChat(front) && item.peer == front[|front| - 1].peer
  {
    var items := front + [item];
    assert items[|front|] == item && forall i :: 0 <= i < |front| ==> items[i] == front[i];
  }

  lemma OneRunExtended(runs: seq<Request>, item: Item)
    ensures |Extended(runs, item)| == 1 <==> runs == [] || (|runs| == 1 && runs[0].from == item.peer)
  {
  }

  lemma OneItem(item: Item)
    ensures OneChat([item]) && |Runs([item])| == 1
  {
    assert [item][..0] == [] && Runs([item]) == Extended([], item);
  }

  lemma {:induction false} OneChatIsOneRun(items: seq<Item>)
    requires items != []
    ensures OneChat(items) <==> |Runs(items)| == 1
  {
    hide *;
    var front, item := items[..|items| - 1], items[|items| - 1];
    if front == [] {
      OneItem(item);
      assert items == [item];
    } else {
      assert items == front + [item];
      OneChatIsOneRun(front);
      RunsSplit(front);
      OneMoreItem(front, item);
      OneRunExtended(Runs(front), item);
      OneMoreInChat(front, item);
    }
  }

  // No message is asked for in a chat that it is not from.
  ghost predicate RightChats(sent: seq<Request>, items: seq<Item>) {
    forall i, k :: 0 <= i < |sent| && 0 <= k < |sent[i].ids| && k < |items| ==> items[k].peer == sent[i].from
  }

  // The draft is forwarded as intended, or even only from the right chats, exactly when all
  // its messages are from one chat.
  lemma ForwardedExactlyFromOneChat(items: seq<Item>)
    requires items != []
    ensures Forwarded(Cumulated(Runs(items))) == items <==> OneChat(items)
    ensures Cumulated(Runs(items)) == Runs(items) <==> OneChat(items)
    ensures RightChats(Cumulated(Runs(items)), items) <==> OneChat(items)
  {
    var runs, sent := Runs(items), Cumulated(Runs(items));
    RunsSplit(items);
    OneChatIsOneRun(items);
    EachRequestIsAPrefix(items, 0);
    if OneChat(items) {
      OneRunIsRight(items);
    } else {
      EachRequestIsAPrefix(items, 1);
      TooMuchForwarded(runs);
      assert items[0].peer == sent[0].from && 0 < |sent[1].ids|;
    }
  }

  lemma OneRunIsRight(items: seq<Item>)
    requires items != [] && OneChat(items)
    ensures Cumulated(Runs(items)) == Runs(items)
  {
    OneChatIsOneRun(items);
    RunsSplit(items);
    var runs := Runs(items);
    hide Runs;
    OneRequest(runs[0]);
    assert runs == [runs[0]];
  }

  lemma OneRequest(r: Request)
    ensures Cumulated([r]) == [r]
  {
    assert [r][..0] == [] && Forwarded([r]) == [] + r.Items() == r.Items();
    assert Ids(r.Items()) == r.ids;
  }

  lemma TooMuchForwarded(runs: seq<Request>)
    requires Separated(runs) && |runs| >= 2
    ensures |Forwarded(Cumulated(runs))| > |Forwarded(runs)|
  {
    var n := |runs| - 1;
    var front, sent := runs[..n], Cumulated(runs);
    assert Separated(front);
    SomethingForwarded(front);
    assert sent[..n] == Cumulated(front);
    var last := Cumulated(front)[n - 1];
    assert |last.ids| == |Forwarded(front)|;
    assert |Forwarded(Cumulated(front))| >= |last.ids|;
  }

  // The smallest example: the first of two messages goes out twice, the second time as a
  // message of the other chat.
  lemma TwoChats(a: Item, b: Item)
    requires a.peer != b.peer
    ensures Cumulated(Runs([a, b])) == [Request(a.peer, [a.id]), Request(b.peer, [a.id, b.id])]
  {
    var one, two := Request(a.peer, [a.id]), Request(b.peer, [b.id]);
    assert [a][..0] == [] && [a, b][..1] == [a];
    assert Runs([a]) == [one] && Runs([a, b]) == [one, two];
    RunsSplit([a]);
    RunsSplit([a, b]);
    assert [one][..0] == [] && [one, two][..1] == [one];
    assert Ids([a]) == [a.id] && Ids([a, b]) == [a.id, b.id];
    assert Cumulated([one]) == [one];
  }
}
