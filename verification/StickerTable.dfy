// What saving the sticker sets of one type does to the table of sets, the recent stickers and
// the stored order.  Ids are the keys of the table.
module StickerTable {
  type SetId = nat
  type DocumentId = nat

  const CUSTOM_SET_ID: SetId := 0xFFFF_FFFF_FFFF_FFFF
  const CLOUD_RECENT_SET_ID: SetId := 0xFFFF_FFFF_FFFF_FFFC
  const CLOUD_RECENT_ATTACHED_SET_ID: SetId := 0xFFFF_FFFF_FFFF_FFF9

  datatype StickersType = Stickers | Masks | Emoji

  // The fields and flags of a set that saving looks at.
  datatype StickersSet = StickersSet(
    installed: bool, archived: bool, masks: bool, featured: bool, special: bool, emoji: bool,
    locked: int, installDate: int, stickers: seq<DocumentId>)
  {
    function Type(): StickersType {
      if emoji then Emoji else if masks then Masks else Stickers
    }

    // A removed set that is deleted, not only marked.
    predicate Forgotten() {
      !featured && !special && !emoji && locked <= 0
    }

    // A set that the last loop leaves in the table.
    predicate Kept() {
      featured || installed || archived || special || emoji || locked > 0
    }

    function Uninstalled(): StickersSet {
      this.(installed := false, archived := false, installDate := 0)
    }

    function Cleared(kind: StickersType): StickersSet {
      if !archived && Type() == kind then this.(installed := false) else this
    }

    function Installed(stillArchived: bool, now: int): StickersSet {
      this.(archived := archived && stillArchived, installed := true,
            installDate := if installDate == 0 then now else installDate)
    }
  }

  type Table = map<SetId, StickersSet>

  datatype Recent = Recent(document: DocumentId, rating: int)

  predicate IsCloud(id: SetId) {
    id == CLOUD_RECENT_SET_ID || id == CLOUD_RECENT_ATTACHED_SET_ID
  }

  predicate ClearsRecent(removed: seq<SetId>) {
    exists r :: r in removed && IsCloud(r)
  }

  const CLEARED: set<SetId> := {CLOUD_RECENT_SET_ID, CLOUD_RECENT_ATTACHED_SET_ID, CUSTOM_SET_ID}

  // A set that the removal loop uninstalls (or deletes).
  predicate Uninstalls(set_: StickersSet, id: SetId, removed: seq<SetId>) {
    id in removed && !IsCloud(id) && !set_.archived
  }

  // ----- the table after each loop, set by set -----

  function AfterRemovals(sets: Table, removed: seq<SetId>): Table {
    map id | id in sets
             && !(ClearsRecent(removed) && id in CLEARED)
             && !(Uninstalls(sets[id], id, removed) && sets[id].Forgotten())
      :: if Uninstalls(sets[id], id, removed) then sets[id].Uninstalled() else sets[id]
  }

  function AfterClearing(sets: Table, kind: StickersType): Table {
    map id | id in sets :: sets[id].Cleared(kind)
  }

  function AfterInstalls(sets: Table, order: seq<SetId>, removed: seq<SetId>, now: int): Table {
    map id | id in sets :: if id in order then sets[id].Installed(id in removed, now) else sets[id]
  }

  function AfterPruning(sets: Table): Table {
    map id | id in sets && sets[id].Kept() :: sets[id]
  }

  function Saved(sets: Table, order: seq<SetId>, removed: seq<SetId>, kind: StickersType, now: int): Table {
    AfterPruning(AfterInstalls(AfterClearing(AfterRemovals(sets, removed), kind), order, removed, now))
  }

  // The ids of a list that have a set.
  function Present(order: seq<SetId>, sets: Table): seq<SetId> {
    if order == [] then []
    else Present(order[..|order| - 1], sets) + if order[|order| - 1] in sets then [order[|order| - 1]] else []
  }

  function Without(recent: seq<Recent>, gone: set<DocumentId>): seq<Recent> {
    if recent == [] then []
    else Without(recent[..|recent| - 1], gone)
         + if recent[|recent| - 1].document in gone then [] else [recent[|recent| - 1]]
  }

  // The documents of the removed sets of a table.
  function Gone(sets: Table, removed: seq<SetId>): set<DocumentId> {
    set r, d | r in removed && !IsCloud(r) && r in sets && d in sets[r].stickers :: d
  }

  function SavedRecent(recent: seq<Recent>, sets: Table, removed: seq<SetId>): seq<Recent> {
    if ClearsRecent(removed) then [] else Without(recent, Gone(sets, removed))
  }

  // ----- one step of each loop -----

  lemma OneMoreRemoved(removed: seq<SetId>, r: SetId, id: SetId)
    ensures id in removed + [r] <==> id in removed || id == r
    ensures ClearsRecent(removed + [r]) <==> ClearsRecent(removed) || IsCloud(r)
  {
    if ClearsRecent(removed) {
      var c :| c in removed && IsCloud(c);
      assert c in removed + [r];
    }
    assert r in removed + [r];
  }

  function OneRemoved(before: Table, r: SetId): Table {
    if IsCloud(r) then before - CLEARED
    else if r !in before || before[r].archived then before
    else if before[r].Forgotten() then before - {r}
    else before[r := before[r].Uninstalled()]
  }

  lemma SetsRemovedOneByOne(sets: Table, removed: seq<SetId>, r: SetId)
    ensures AfterRemovals(sets, removed + [r]) == OneRemoved(AfterRemovals(sets, removed), r)
  {
    var a, b := AfterRemovals(sets, removed + [r]), OneRemoved(AfterRemovals(sets, removed), r);
    forall id: SetId ensures (id in a <==> id in b) && (id in a ==> a[id] == b[id]) {
      OneMoreRemoved(removed, r, id);
    }
  }

  function OneInstalled(before: Table, id: SetId, removed: seq<SetId>, now: int): Table {
    if id in before then before[id := before[id].Installed(id in removed, now)] else before
  }

  lemma SetsInstalledOneByOne(sets: Table, order: seq<SetId>, removed: seq<SetId>, now: int, id: SetId)
    ensures AfterInstalls(sets, order + [id], removed, now) ==
            OneInstalled(AfterInstalls(sets, order, removed, now), id, removed, now)
  {
    var a := AfterInstalls(sets, order + [id], removed, now);
    var b := OneInstalled(AfterInstalls(sets, order, removed, now), id, removed, now);
    forall other: SetId ensures (other in a <==> other in b) && (other in a ==> a[other] == b[other]) {
      assert other in order + [id] <==> other in order || other == id;
    }
  }

  // ----- what saving promises -----

  lemma {:induction false} PresentElements(order: seq<SetId>, sets: Table)
    ensures forall id :: id in Present(order, sets) <==> id in order && id in sets
  {
    if order != [] {
      var n := |order| - 1;
      PresentElements(order[..n], sets);
      assert order == order[..n] + [order[n]];
    }
  }

  // Nothing is repeated or moved either.
  lemma {:induction false} PresentConcat(a: seq<SetId>, b: seq<SetId>, sets: Table)
    ensures Present(a + b, sets) == Present(a, sets) + Present(b, sets)
  {
    if b == [] {
      assert a + b == a;
    } else {
      var n := |b| - 1;
      assert (a + b)[..|a + b| - 1] == a + b[..n];
      PresentConcat(a, b[..n], sets);
    }
  }

  lemma PresentOne(id: SetId, sets: Table)
    ensures Present([id], sets) == if id in sets then [id] else []
  {
    assert [id][..0] == [];
  }

  lemma {:induction false} SamePresent(order: seq<SetId>, a: Table, b: Table)
    requires forall id :: id in order ==> (id in a <==> id in b)
    ensures Present(order, a) == Present(order, b)
  {
    if order != [] {
      var n := |order| - 1;
      assert order == order[..n] + [order[n]];
      SamePresent(order[..n], a, b);
    }
  }

  // Pruning loses no set of the order: the ids stored before it are those still present.
  lemma OrderSurvivesPruning(sets: Table, order: seq<SetId>, removed: seq<SetId>, kind: StickersType, now: int)
    ensures Present(order, AfterClearing(AfterRemovals(sets, removed), kind)) ==
            Present(order, Saved(sets, order, removed, kind, now))
  {
    SamePresent(order, AfterClearing(AfterRemovals(sets, removed), kind), Saved(sets, order, removed, kind, now));
  }

  // ----- in terms of the flags themselves -----

  // Custom emoji are of their own kind whether or not they are masks.
  predicate OfKind(set_: StickersSet, kind: StickersType) {
    match kind
    case Stickers => !set_.masks && !set_.emoji
    case Masks => set_.masks && !set_.emoji
    case Emoji => set_.emoji
  }

  // Removing either cloud set takes both away, and the custom set with them.
  predicate TakenByCloud(removed: seq<SetId>, id: SetId) {
    (0xFFFF_FFFF_FFFF_FFFC in removed || 0xFFFF_FFFF_FFFF_FFF9 in removed)
    && id in {0xFFFF_FFFF_FFFF_FFFC, 0xFFFF_FFFF_FFFF_FFF9, 0xFFFF_FFFF_FFFF_FFFF}
  }

  // A removed set that is not archived; removing an archived one does not touch it.
  predicate RemovedNow(set_: StickersSet, id: SetId, removed: seq<SetId>) {
    id in removed && id !in {0xFFFF_FFFF_FFFF_FFFC, 0xFFFF_FFFF_FFFF_FFF9} && !set_.archived
  }

  predicate Needed(set_: StickersSet) {
    set_.featured || set_.special || set_.emoji || set_.locked > 0
  }

  predicate InstalledAfter(set_: StickersSet, id: SetId, order: seq<SetId>, removed: seq<SetId>, kind: StickersType) {
    id in order || (set_.installed && !RemovedNow(set_, id, removed) && (set_.archived || !OfKind(set_, kind)))
  }

  predicate ArchivedAfter(set_: StickersSet, id: SetId, order: seq<SetId>, removed: seq<SetId>) {
    set_.archived && (id in order ==> id in removed)
  }

  function DateAfter(set_: StickersSet, id: SetId, order: seq<SetId>, removed: seq<SetId>, now: int): int {
    var date := if RemovedNow(set_, id, removed) then 0 else set_.installDate;
    if id in order && date == 0 then now else date
  }

  lemma CloudIds(removed: seq<SetId>, id: SetId)
    ensures ClearsRecent(removed) && id in CLEARED <==> TakenByCloud(removed, id)
  {
    if ClearsRecent(removed) {
      var r :| r in removed && IsCloud(r);
    }
    if CLOUD_RECENT_SET_ID in removed {
      assert IsCloud(CLOUD_RECENT_SET_ID);
    }
    if CLOUD_RECENT_ATTACHED_SET_ID in removed {
      assert IsCloud(CLOUD_RECENT_ATTACHED_SET_ID);
    }
  }

  // What the first three loops leave of a set, before pruning.
  function Unpruned(set_: StickersSet, id: SetId, order: seq<SetId>, removed: seq<SetId>, kind: StickersType, now: int): StickersSet {
    set_.(installed := InstalledAfter(set_, id, order, removed, kind),
          archived := ArchivedAfter(set_, id, order, removed),
          installDate := DateAfter(set_, id, order, removed, now))
  }

  lemma UnprunedOf(set_: StickersSet, id: SetId, order: seq<SetId>, removed: seq<SetId>, kind: StickersType, now: int)
    ensures var a := if Uninstalls(set_, id, removed) then set_.Uninstalled() else set_;
            var b := a.Cleared(kind);
            Unpruned(set_, id, order, removed, kind, now) == if id in order then b.Installed(id in removed, now) else b
  {
  }

  // Which sets are there after a save, and with which flags; no other field changes.
  lemma SavedExactly(sets: Table, order: seq<SetId>, removed: seq<SetId>, kind: StickersType, now: int, id: SetId)
    ensures var t := Saved(sets, order, removed, kind, now);
            && (id in t <==>
                  && id in sets && !TakenByCloud(removed, id)
                  && (RemovedNow(sets[id], id, removed) ==> Needed(sets[id]))
                  && (|| Needed(sets[id])
                      || InstalledAfter(sets[id], id, order, removed, kind)
                      || ArchivedAfter(sets[id], id, order, removed)))
            && (id in t ==>
                  t[id] == Unpruned(sets[id], id, order, removed, kind, now))
  {
    CloudIds(removed, id);
    if id in sets {
      UnprunedOf(sets[id], id, order, removed, kind, now);
      UnprunedKept(sets[id], id, order, removed, kind, now);
    }
    hide ClearsRecent, TakenByCloud, Uninstalls, Unpruned, RemovedNow, Needed, InstalledAfter, ArchivedAfter, DateAfter;
    hide StickersSet.Uninstalled, StickersSet.Cleared, StickersSet.Installed, StickersSet.Kept, StickersSet.Forgotten;
  }

  lemma UnprunedKept(set_: StickersSet, id: SetId, order: seq<SetId>, removed: seq<SetId>, kind: StickersType, now: int)
    ensures Unpruned(set_, id, order, removed, kind, now).Kept() <==>
            Needed(set_) || InstalledAfter(set_, id, order, removed, kind) || ArchivedAfter(set_, id, order, removed)
    ensures Uninstalls(set_, id, removed) && set_.Forgotten() <==> RemovedNow(set_, id, removed) && !Needed(set_)
  {
  }

  // An installed set in neither list is still there and installed exactly when it is not of
  // the saved kind.
  lemma OtherKindsStayInstalled(sets: Table, order: seq<SetId>, removed: seq<SetId>, kind: StickersType, now: int, id: SetId)
    requires id in sets && sets[id].installed && !sets[id].archived
    requires id !in order && id !in removed && !TakenByCloud(removed, id)
    ensures var t := Saved(sets, order, removed, kind, now);
            id in t && t[id].installed <==> !OfKind(sets[id], kind)
  {
    SavedExactly(sets, order, removed, kind, now, id);
    hide Saved;
  }

  // A set that is not archived and of the saved kind is installed exactly when it is in the
  // order; any set of the order is installed.
  lemma InstalledExactlyWhenOrdered(sets: Table, order: seq<SetId>, removed: seq<SetId>, kind: StickersType, now: int, id: SetId)
    requires id in Saved(sets, order, removed, kind, now)
    ensures var s := Saved(sets, order, removed, kind, now)[id];
            && (id in order ==> s.installed)
            && (!s.archived && OfKind(s, kind) ==> (s.installed <==> id in order))
  {
    SavedExactly(sets, order, removed, kind, now, id);
    hide Saved;
  }

  // A set of the order stays archived exactly when it was and is also being removed.
  lemma ArchivedInOrder(sets: Table, order: seq<SetId>, removed: seq<SetId>, kind: StickersType, now: int, id: SetId)
    requires id in order && id in Saved(sets, order, removed, kind, now)
    ensures Saved(sets, order, removed, kind, now)[id].archived <==> id in sets && sets[id].archived && id in removed
  {
  }

  // Which sets of the old table are still there.
  lemma WhoSurvives(sets: Table, order: seq<SetId>, removed: seq<SetId>, kind: StickersType, now: int, id: SetId)
    ensures id in Saved(sets, order, removed, kind, now) <==>
            && id in sets
            && !(ClearsRecent(removed) && id in CLEARED)
            && (|| !sets[id].Forgotten()
                || sets[id].archived
                || (!(id in removed && !IsCloud(id))
                    && (id in order || (sets[id].installed && sets[id].Type() != kind))))
  {
  }

  // A set of another type that is in neither list is not touched.
  lemma OthersUntouched(sets: Table, order: seq<SetId>, removed: seq<SetId>, kind: StickersType, now: int, id: SetId)
    requires id in sets && id !in order && id !in removed && !(ClearsRecent(removed) && id in CLEARED)
    requires sets[id].Type() != kind || sets[id].archived
    ensures var t := Saved(sets, order, removed, kind, now);
            (id in t <==> sets[id].Kept()) && (id in t ==> t[id] == sets[id])
  {
  }
}
