// Sending an album: uploads become ready in any order, and the album goes out when the last
// one is ready.
module Album {
  import opened Wrappers

  type TaskId = int
  type Content = string

  datatype Item = Item(taskId: TaskId, content: Option<Content>)

  datatype Sent = Message(content: Content) | WholeAlbum(contents: seq<Content>) | MediaEdit(content: Content)

  datatype Completion = Completion(taskId: TaskId, content: Content)

  // The place of the first item of a task, or the length.
  function Place(items: seq<Item>, taskId: TaskId): (i: nat)
    ensures i <= |items|
    ensures i < |items| ==> items[i].taskId == taskId
    ensures forall j :: 0 <= j < i ==> items[j].taskId != taskId
  {
    if items == [] then 0
    else if items[0].taskId == taskId then 0
    else 1 + Place(items[1..], taskId)
  }

  function Stored(items: seq<Item>, c: Completion): (r: seq<Item>)
    requires Place(items, c.taskId) < |items|
    ensures |r| == |items|
  {
    var i := Place(items, c.taskId);
    items[i := items[i].(content := Some(c.content))]
  }

  predicate AllReady(items: seq<Item>) {
    forall i :: 0 <= i < |items| ==> items[i].content.Some?
  }

  function Contents(items: seq<Item>): (c: seq<Content>)
    requires AllReady(items)
    ensures |c| == |items|
  {
    seq(|items|, i requires 0 <= i < |items| => items[i].content.value)
  }

  // What goes out for an album in this state.
  function Sendable(items: seq<Item>): seq<Sent> {
    if items == [] || !AllReady(items) then []
    else if |items| == 1 then [Message(items[0].content.value)]
    else [WholeAlbum(Contents(items))]
  }

  // ----- the objects -----

  class SendingAlbum {
    var items: seq<Item>

    constructor (tasks: seq<TaskId>)
      ensures items == Fresh(tasks)
    {
      items := Fresh(tasks);
    }
  }

  class Session {
    var sent: seq<Sent>

    constructor ()
      ensures sent == []
    {
      sent := [];
    }

    method SendPreparedAlbumIfReady(album: SendingAlbum)
      modifies this
      ensures sent == old(sent) + Sendable(album.items)
    {
      if album.items == [] {
        return;
      } else if |album.items| == 1 {
        if album.items[0].content.Some? {
          sent := sent + [Message(album.items[0].content.value)];
        }
        return;
      }
      var contents, i := [], 0;
      while i < |album.items|
        invariant 0 <= i <= |album.items|
        invariant forall j :: 0 <= j < i ==> album.items[j].content.Some?
        invariant |contents| == i && forall j :: 0 <= j < i ==> contents[j] == album.items[j].content.value
      {
        if album.items[i].content.None? {
          return;
        }
        contents := contents + [album.items[i].content.value];
        i := i + 1;
      }
      assert contents == Contents(album.items);
      sent := sent + [WholeAlbum(contents)];
    }

    // The ready callback of SendConfirmedFile.
    method Ready(c: Completion, replaceMedia: bool, album: SendingAlbum?)
      requires !replaceMedia && album != null ==> Place(album.items, c.taskId) < |album.items|
      modifies this, album
      ensures replaceMedia ==> sent == old(sent) + [MediaEdit(c.content)] && (album != null ==> album.items == old(album.items))
      ensures !replaceMedia && album == null ==> sent == old(sent) + [Message(c.content)]
      ensures !replaceMedia && album != null ==>
                album.items == Stored(old(album.items), c) && sent == old(sent) + Sendable(album.items)
    {
      if replaceMedia {
        sent := sent + [MediaEdit(c.content)];
        return;
      }
      if album != null {
        var i := 0;
        while album.items[i].taskId != c.taskId
          invariant 0 <= i <= Place(album.items, c.taskId)
          decreases |album.items| - i
        {
          i := i + 1;
        }
        album.items := album.items[i := album.items[i].(content := Some(c.content))];
        SendPreparedAlbumIfReady(album);
      } else {
        sent := sent + [Message(c.content)];
      }
    }
  }

  // ----- runs -----

  function Fresh(tasks: seq<TaskId>): (items: seq<Item>)
    ensures |items| == |tasks|
  {
    seq(|tasks|, i requires 0 <= i < |tasks| => Item(tasks[i], None))
  }

  datatype Progress = Progress(items: seq<Item>, sent: seq<Sent>)

  // Completions of tasks that are not in the album do not reach it.
  function Run(tasks: seq<TaskId>, completions: seq<Completion>): Progress
    decreases |completions|
  {
    if completions == [] then Progress(Fresh(tasks), [])
    else
      var n := |completions| - 1;
      var p, c := Run(tasks, completions[..n]), completions[n];
      if Place(p.items, c.taskId) == |p.items| then p
      else
        var items := Stored(p.items, c);
        Progress(items, p.sent + Sendable(items))
  }

  predicate First(tasks: seq<TaskId>, i: nat)
    requires i < |tasks|
  {
    forall j :: 0 <= j < i ==> tasks[j] != tasks[i]
  }

  predicate Distinct(tasks: seq<TaskId>) {
    forall i, j :: 0 <= i < j < |tasks| ==> tasks[i] != tasks[j]
  }

  function LastContent(completions: seq<Completion>, taskId: TaskId): Option<Content> {
    if completions == [] then None
    else
      var n := |completions| - 1;
      if completions[n].taskId == taskId then Some(completions[n].content)
      else LastContent(completions[..n], taskId)
  }

  // After any completions an item holds the content of its task if it is the task's first.
  lemma {:induction false} ItemsOfRun(tasks: seq<TaskId>, completions: seq<Completion>)
    ensures var items := Run(tasks, completions).items;
            && |items| == |tasks|
            && forall i :: 0 <= i < |tasks| ==>
                 items[i] == Item(tasks[i], if First(tasks, i) then LastContent(completions, tasks[i]) else None)
    decreases |completions|
  {
    if completions != [] {
      var n := |completions| - 1;
      var c, before := completions[n], Run(tasks, completions[..n]).items;
      ItemsOfRun(tasks, completions[..n]);
      var p := Place(before, c.taskId);
      forall i | 0 <= i < |tasks|
        ensures Run(tasks, completions).items[i] ==
                Item(tasks[i], if First(tasks, i) then LastContent(completions, tasks[i]) else None)
      {
        if p < |before| {
          assert before[p].taskId == tasks[p];
          assert First(tasks, p);
        }
        assert tasks[i] == c.taskId && First(tasks, i) ==> i == p;
      }
    }
  }

  function TasksOf(completions: seq<Completion>): (t: seq<TaskId>)
    ensures |t| == |completions|
  {
    seq(|completions|, i requires 0 <= i < |completions| => completions[i].taskId)
  }

  lemma {:induction false} NoContentYet(completions: seq<Completion>, taskId: TaskId)
    ensures LastContent(completions, taskId).None? <==> taskId !in TasksOf(completions)
  {
    if completions != [] {
      var n := |completions| - 1;
      NoContentYet(completions[..n], taskId);
      assert TasksOf(completions) == TasksOf(completions[..n]) + [completions[n].taskId];
    }
  }

  lemma {:induction false} MultiplicityOfDistinct(tasks: seq<TaskId>, t: TaskId)
    ensures Distinct(tasks) ==> multiset(tasks)[t] <= 1
    ensures (exists i, j :: 0 <= i < j < |tasks| && tasks[i] == t == tasks[j]) ==> multiset(tasks)[t] >= 2
  {
    if tasks != [] {
      var n := |tasks| - 1;
      assert tasks == tasks[..n] + [tasks[n]];
      MultiplicityOfDistinct(tasks[..n], t);
      assert t in tasks[..n] <==> multiset(tasks[..n])[t] > 0;
      if i, j :| 0 <= i < j < |tasks| && tasks[i] == t == tasks[j] {
        assert j < n || (j == n && tasks[..n][i] == t);
      }
    }
  }

  lemma PermutationIsDistinct(a: seq<TaskId>, b: seq<TaskId>)
    requires multiset(a) == multiset(b) && Distinct(b)
    ensures Distinct(a)
  {
    forall i, j | 0 <= i < j < |a| ensures a[i] != a[j] {
      MultiplicityOfDistinct(a, a[i]);
      MultiplicityOfDistinct(b, a[i]);
    }
  }

  // Every upload becomes ready once.
  ghost predicate OnceEach(tasks: seq<TaskId>, completions: seq<Completion>) {
    multiset(TasksOf(completions)) == multiset(tasks)
  }

  // Nothing is sent while a task is missing or when two items share a task.
  lemma {:induction false} NothingSentYet(tasks: seq<TaskId>, completions: seq<Completion>)
    requires !Distinct(tasks) || exists t :: t in tasks && t !in TasksOf(completions)
    ensures Run(tasks, completions).sent == []
    decreases |completions|
  {
    ItemsOfRun(tasks, completions);
    if completions != [] {
      var n := |completions| - 1;
      assert TasksOf(completions) == TasksOf(completions[..n]) + [completions[n].taskId];
      NothingSentYet(tasks, completions[..n]);
      var items := Run(tasks, completions).items;
      var i :| 0 <= i < |tasks| && (!First(tasks, i) || tasks[i] !in TasksOf(completions)) by {
        MissingItem(tasks, completions);
      }
      NoContentYet(completions, tasks[i]);
      assert items[i].content.None?;
    }
  }

  lemma MissingItem(tasks: seq<TaskId>, completions: seq<Completion>)
    requires !Distinct(tasks) || exists t :: t in tasks && t !in TasksOf(completions)
    ensures exists i :: 0 <= i < |tasks| && (!First(tasks, i) || tasks[i] !in TasksOf(completions))
  {
    if !Distinct(tasks) {
      var i, j :| 0 <= i < j < |tasks| && tasks[i] == tasks[j];
      assert !First(tasks, j);
    }
  }

  // What an album must send: the contents of its tasks in item order.
  function Expected(tasks: seq<TaskId>, completions: seq<Completion>): Sent
    requires tasks != []
    requires forall t :: t in tasks ==> LastContent(completions, t).Some?
  {
    if |tasks| == 1 then Message(LastContent(completions, tasks[0]).value)
    else WholeAlbum(seq(|tasks|, i requires 0 <= i < |tasks| => LastContent(completions, tasks[i]).value))
  }

  lemma NothingSentBefore(tasks: seq<TaskId>, completions: seq<Completion>, k: nat)
    requires OnceEach(tasks, completions) && k < |completions|
    ensures Run(tasks, completions[..k]).sent == []
  {
    var done := TasksOf(completions);
    if Distinct(tasks) {
      PermutationIsDistinct(done, tasks);
      assert done[k] in multiset(done) && done[k] in tasks;
      assert forall j :: 0 <= j < k ==> TasksOf(completions[..k])[j] == done[j];
    }
    NothingSentYet(tasks, completions[..k]);
  }

  lemma AllTasksDone(tasks: seq<TaskId>, completions: seq<Completion>)
    requires OnceEach(tasks, completions)
    ensures |completions| == |tasks|
    ensures forall t :: t in tasks ==> LastContent(completions, t).Some?
    ensures forall c :: c in completions ==> c.taskId in tasks
  {
    var done := TasksOf(completions);
    assert |multiset(done)| == |done| && |multiset(tasks)| == |tasks|;
    forall t | t in tasks ensures LastContent(completions, t).Some? {
      assert t in multiset(tasks) && t in multiset(done) && t in done;
      NoContentYet(completions, t);
    }
    forall c | c in completions ensures c.taskId in tasks {
      var i :| 0 <= i < |completions| && completions[i] == c;
      assert done[i] in multiset(done) && done[i] in multiset(tasks);
    }
  }

  lemma LastCompletionSends(tasks: seq<TaskId>, completions: seq<Completion>)
    requires tasks != [] && completions != [] && Distinct(tasks)
    requires forall t :: t in tasks ==> LastContent(completions, t).Some?
    requires completions[|completions| - 1].taskId in tasks
    ensures Run(tasks, completions).sent ==
            Run(tasks, completions[..|completions| - 1]).sent + [Expected(tasks, completions)]
  {
    var n := |completions| - 1;
    ItemsOfRun(tasks, completions);
    ItemsOfRun(tasks, completions[..n]);
    var items, before := Run(tasks, completions).items, Run(tasks, completions[..n]).items;
    var i :| 0 <= i < |tasks| && tasks[i] == completions[n].taskId;
    assert before[i].taskId == completions[n].taskId;
    forall j | 0 <= j < |tasks| ensures items[j].content == LastContent(completions, tasks[j]) && items[j].content.Some? {
      assert First(tasks, j) && tasks[j] in tasks;
    }
    SendableAsExpected(tasks, completions, items);
  }

  lemma SendableAsExpected(tasks: seq<TaskId>, completions: seq<Completion>, items: seq<Item>)
    requires tasks != [] && |items| == |tasks|
    requires forall t :: t in tasks ==> LastContent(completions, t).Some?
    requires forall j :: 0 <= j < |tasks| ==> items[j].content == LastContent(completions, tasks[j])
    ensures Sendable(items) == [Expected(tasks, completions)]
  {
    assert forall j :: 0 <= j < |tasks| ==> tasks[j] in tasks && items[j].content.Some?;
    if |tasks| > 1 {
      assert Contents(items) == Expected(tasks, completions).contents;
    } else {
      assert tasks[0] in tasks;
    }
  }

  // With distinct tasks exactly one send happens, on the last completion, in item order;
  // otherwise the album is never sent.
  lemma SentOnceInItemOrder(tasks: seq<TaskId>, completions: seq<Completion>)
    requires tasks != [] && OnceEach(tasks, completions)
    ensures forall t :: t in tasks ==> LastContent(completions, t).Some?
    ensures Run(tasks, completions).sent == if Distinct(tasks) then [Expected(tasks, completions)] else []
    ensures forall k :: 0 <= k < |completions| ==> Run(tasks, completions[..k]).sent == []
  {
    AllTasksDone(tasks, completions);
    forall k | 0 <= k < |completions| ensures Run(tasks, completions[..k]).sent == [] {
      NothingSentBefore(tasks, completions, k);
    }
    if Distinct(tasks) {
      assert completions[|completions| - 1] in completions;
      LastCompletionSends(tasks, completions);
    } else {
      NothingSentYet(tasks, completions);
    }
  }
}
