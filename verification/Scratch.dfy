/**
  Repairing a scratch tree before deleting it: `_make_scratch_tree_removable` of
  `src/serein/distribution/inspect.py`.  The process owns every file; what it can do to a path
  depends on the modes of the directories above it at that moment.
 */
module Scratch {
  type Id = nat

  /** The owner bits, and every other bit of the mode. */
  datatype Mode = Mode(r: bool, w: bool, x: bool, rest: nat)

  /** A finite directory tree; several regular files may share an inode, and a link has a target anywhere. */
  datatype Tree =
    | Regular(id: Id)
    | Link(id: Id, target: Id)
    | Folder(id: Id, entries: seq<Tree>)

  type Modes = map<Id, Mode>

  /** The inodes of the real files and directories of a tree. */
  ghost function RealIds(t: Tree): set<Id>
    decreases t, 0
  {
    match t
    case Regular(id) => {id}
    case Link(_, _) => {}
    case Folder(id, entries) => {id} + RealIdsOf(entries)
  }

  ghost function RealIdsOf(ts: seq<Tree>): set<Id>
    decreases ts, 1
  {
    if ts == [] then {} else RealIdsOf(ts[..|ts| - 1]) + RealIds(ts[|ts| - 1])
  }

  /** Every directory on the way down has its execute bit. */
  predicate Searchable(modes: Modes, above: seq<Id>) {
    forall a :: a in above ==> a in modes && modes[a].x
  }

  function AddAll(m: Mode): Mode {
    m.(r := true, w := true, x := true)
  }

  // ----- the walk, with the permission checks of the system calls it makes -----

  /** `chmod` fails, and is ignored, unless the path can be reached. */
  function Chmod(modes: Modes, above: seq<Id>, id: Id, change: Mode -> Mode): Modes {
    if Searchable(modes, above) && id in modes then modes[id := change(modes[id])] else modes
  }

  predicate CanList(modes: Modes, above: seq<Id>, id: Id) {
    Searchable(modes, above) && id in modes && modes[id].r && modes[id].x
  }

  function Repair(t: Tree, above: seq<Id>, modes: Modes): Modes
    decreases t, 0
  {
    if t.Link? then modes
    else
      var changed := Chmod(modes, above, t.id, AddAll);
      if t.Folder? && CanList(changed, above, t.id) then RepairEntries(t.entries, above + [t.id], changed) else changed
  }

  function RepairEntries(entries: seq<Tree>, above: seq<Id>, modes: Modes): Modes
    decreases entries, 1
  {
    if entries == [] then modes
    else RepairEntry(entries[|entries| - 1], above, RepairEntries(entries[..|entries| - 1], above, modes))
  }

  function RepairEntry(entry: Tree, above: seq<Id>, modes: Modes): Modes
    decreases entry, 1
  {
    match entry
    case Link(_, _) => modes
    case Folder(_, _) => Repair(entry, above, modes)
    case Regular(id) => Chmod(modes, above, id, (m: Mode) => m.(w := true))
  }

  class FileSystem {
    var modes: Modes

    constructor (modes: Modes)
      ensures this.modes == modes
    {
      this.modes := modes;
    }

    method MakeRemovable(root: Tree, above: seq<Id>)
      modifies this
      ensures modes == Repair(root, above, old(modes))
      decreases root
    {
      if root.Link? {
        return;
      }
      modes := Chmod(modes, above, root.id, AddAll);
      if !root.Folder? || !CanList(modes, above, root.id) {
        return;
      }
      ghost var start := modes;
      for i := 0 to |root.entries|
        invariant modes == RepairEntries(root.entries[..i], above + [root.id], start)
      {
        var entry := root.entries[i];
        assert root.entries[..i + 1][..i] == root.entries[..i];
        if entry.Link? {
          continue;
        }
        if entry.Folder? {
          MakeRemovable(entry, above + [root.id]);
        } else {
          modes := Chmod(modes, above + [root.id], entry.id, (m: Mode) => m.(w := true));
        }
      }
      assert root.entries[..|root.entries|] == root.entries;
    }
  }

  // ----- only bits are added -----

  predicate Extends(m: Mode, n: Mode) {
    (m.r ==> n.r) && (m.w ==> n.w) && (m.x ==> n.x) && m.rest == n.rest
  }

  /** `n` has the bits of `m` and maybe more, and differs from it only on `ids`. */
  ghost predicate Grown(m: Modes, n: Modes, ids: set<Id>) {
    && m.Keys == n.Keys
    && forall i :: i in m ==> Extends(m[i], n[i]) && (i !in ids ==> n[i] == m[i])
  }

  lemma {:induction false} RepairGrows(t: Tree, above: seq<Id>, modes: Modes)
    ensures Grown(modes, Repair(t, above, modes), RealIds(t))
    decreases t, 0
  {
    if !t.Link? {
      var changed := Chmod(modes, above, t.id, AddAll);
      assert Grown(modes, changed, {t.id});
      if t.Folder? {
        RepairEntriesGrow(t.entries, above + [t.id], changed);
      }
    }
  }

  lemma {:induction false} RepairEntriesGrow(ts: seq<Tree>, above: seq<Id>, modes: Modes)
    ensures Grown(modes, RepairEntries(ts, above, modes), RealIdsOf(ts))
    decreases ts, 1
  {
    if ts != [] {
      RepairEntriesGrow(ts[..|ts| - 1], above, modes);
      RepairEntryGrows(ts[|ts| - 1], above, RepairEntries(ts[..|ts| - 1], above, modes));
    }
  }

  lemma {:induction false} RepairEntryGrows(t: Tree, above: seq<Id>, modes: Modes)
    ensures Grown(modes, RepairEntry(t, above, modes), RealIds(t))
    decreases t, 1
  {
    if t.Folder? { RepairGrows(t, above, modes); }
  }

  // ----- what the repaired tree looks like -----

  ghost predicate Repaired(t: Tree, modes: Modes)
    decreases t, 0
  {
    match t
    case Regular(id) => id in modes && modes[id].w
    case Link(_, _) => true
    case Folder(id, entries) => id in modes && modes[id].r && modes[id].w && modes[id].x && RepairedAll(entries, modes)
  }

  ghost predicate RepairedAll(ts: seq<Tree>, modes: Modes)
    decreases ts, 1
  {
    ts == [] || (RepairedAll(ts[..|ts| - 1], modes) && Repaired(ts[|ts| - 1], modes))
  }

  lemma {:induction false} RepairedStays(t: Tree, m: Modes, n: Modes, ids: set<Id>)
    requires Repaired(t, m) && Grown(m, n, ids)
    ensures Repaired(t, n)
    decreases t, 0
  {
    if t.Folder? { RepairedAllStays(t.entries, m, n, ids); }
  }

  lemma {:induction false} RepairedAllStays(ts: seq<Tree>, m: Modes, n: Modes, ids: set<Id>)
    requires RepairedAll(ts, m) && Grown(m, n, ids)
    ensures RepairedAll(ts, n)
    decreases ts, 1
  {
    if ts != [] {
      RepairedAllStays(ts[..|ts| - 1], m, n, ids);
      RepairedStays(ts[|ts| - 1], m, n, ids);
    }
  }

  lemma SearchableStays(m: Modes, n: Modes, above: seq<Id>, ids: set<Id>)
    requires Searchable(m, above) && Grown(m, n, ids)
    ensures Searchable(n, above)
  {
  }

  lemma {:induction false} RepairWorks(t: Tree, above: seq<Id>, modes: Modes)
    requires Searchable(modes, above) && RealIds(t) <= modes.Keys
    ensures Repaired(t, Repair(t, above, modes))
    decreases t, 0
  {
    if !t.Link? {
      var changed := Chmod(modes, above, t.id, AddAll);
      assert Grown(modes, changed, {t.id});
      SearchableStays(modes, changed, above, {t.id});
      if t.Folder? {
        RepairEntriesWork(t.entries, above + [t.id], changed);
        RepairEntriesGrow(t.entries, above + [t.id], changed);
      }
    }
  }

  lemma {:induction false} RepairEntriesWork(ts: seq<Tree>, above: seq<Id>, modes: Modes)
    requires Searchable(modes, above) && RealIdsOf(ts) <= modes.Keys
    ensures RepairedAll(ts, RepairEntries(ts, above, modes))
    decreases ts, 1
  {
    if ts != [] {
      var front, last := ts[..|ts| - 1], ts[|ts| - 1];
      var before := RepairEntries(front, above, modes);
      RepairEntriesWork(front, above, modes);
      RepairEntriesGrow(front, above, modes);
      SearchableStays(modes, before, above, RealIdsOf(front));
      RepairEntryWorks(last, above, before);
      RepairEntryGrows(last, above, before);
      RepairedAllStays(front, before, RepairEntry(last, above, before), RealIds(last));
    }
  }

  lemma {:induction false} RepairEntryWorks(t: Tree, above: seq<Id>, modes: Modes)
    requires Searchable(modes, above) && RealIds(t) <= modes.Keys
    ensures Repaired(t, RepairEntry(t, above, modes))
    decreases t, 1
  {
    if t.Folder? { RepairWorks(t, above, modes); }
  }

  // ----- deleting -----

  /** `shutil.rmtree` is not refused: each directory can be opened, and emptied if it has entries. */
  predicate CanDelete(t: Tree, modes: Modes)
    decreases t, 0
  {
    t.Folder? ==>
      t.id in modes && modes[t.id].r && (t.entries != [] ==> modes[t.id].w && modes[t.id].x)
        && CanDeleteAll(t.entries, modes)
  }

  predicate CanDeleteAll(ts: seq<Tree>, modes: Modes)
    decreases ts, 1
  {
    ts == [] || (CanDeleteAll(ts[..|ts| - 1], modes) && CanDelete(ts[|ts| - 1], modes))
  }

  /** `d` is the node itself or somewhere below it. */
  ghost predicate Within(d: Tree, t: Tree) {
    d == t || (t.Folder? && exists e :: e in t.entries && Within(d, e))
  }

  /** A directory that cannot be listed, or that has entries and cannot be changed or entered. */
  ghost predicate Blocks(d: Tree, modes: Modes) {
    d.Folder? && (d.id !in modes || !modes[d.id].r || (d.entries != [] && (!modes[d.id].w || !modes[d.id].x)))
  }

  /** A recursive delete is refused if and only if some directory of the tree is in its way. */
  lemma {:induction false} DeleteRefused(t: Tree, modes: Modes)
    ensures CanDelete(t, modes) <==> !exists d :: Within(d, t) && Blocks(d, modes)
    decreases t, 0
  {
    if t.Folder? {
      DeleteRefusedAll(t.entries, modes);
      assert Blocks(t, modes) ==> Within(t, t);
      forall e, d | e in t.entries && Within(d, e) ensures Within(d, t) {}
    }
  }

  lemma {:induction false} DeleteRefusedAll(ts: seq<Tree>, modes: Modes)
    ensures CanDeleteAll(ts, modes) <==> !exists e, d :: e in ts && Within(d, e) && Blocks(d, modes)
    decreases ts, 1
  {
    hide CanDelete, Blocks, Within;
    if ts != [] {
      var front, last := ts[..|ts| - 1], ts[|ts| - 1];
      DeleteRefusedAll(front, modes);
      DeleteRefused(last, modes);
      assert ts == front + [last];
    }
  }

  lemma {:induction false} RepairedCanBeDeleted(t: Tree, modes: Modes)
    requires Repaired(t, modes)
    ensures CanDelete(t, modes)
    decreases t, 0
  {
    if t.Folder? { AllRepairedCanBeDeleted(t.entries, modes); }
  }

  lemma {:induction false} AllRepairedCanBeDeleted(ts: seq<Tree>, modes: Modes)
    requires RepairedAll(ts, modes)
    ensures CanDeleteAll(ts, modes)
    decreases ts, 1
  {
    if ts != [] {
      AllRepairedCanBeDeleted(ts[..|ts| - 1], modes);
      RepairedCanBeDeleted(ts[|ts| - 1], modes);
    }
  }

  /**
    Scratch-tree repair, on any finite owned tree with arbitrary modes whose root can be reached:
    every real directory ends owner-rwx and every real file owner-writable, only bits are added
    and only to real files and directories of the tree, no symlink and nothing a symlink alone
    leads to is changed, and a recursive delete cannot be refused.
   */
  lemma ScratchTreeBecomesRemovable(t: Tree, above: seq<Id>, modes: Modes)
    requires Searchable(modes, above) && RealIds(t) <= modes.Keys
    ensures var after := Repair(t, above, modes);
      Repaired(t, after) && Grown(modes, after, RealIds(t)) && CanDelete(t, after)
  {
    RepairWorks(t, above, modes);
    RepairGrows(t, above, modes);
    RepairedCanBeDeleted(t, Repair(t, above, modes));
  }

  // ----- which bits exactly -----

  ghost function FolderIds(t: Tree): set<Id>
    decreases t, 0
  {
    if t.Folder? then {t.id} + FolderIdsOf(t.entries) else {}
  }

  ghost function FolderIdsOf(ts: seq<Tree>): set<Id>
    decreases ts, 1
  {
    if ts == [] then {} else FolderIdsOf(ts[..|ts| - 1]) + FolderIds(ts[|ts| - 1])
  }

  ghost function FileIds(t: Tree): set<Id>
    decreases t, 0
  {
    match t
    case Regular(id) => {id}
    case Link(_, _) => {}
    case Folder(_, entries) => FileIdsOf(entries)
  }

  ghost function FileIdsOf(ts: seq<Tree>): set<Id>
    decreases ts, 1
  {
    if ts == [] then {} else FileIdsOf(ts[..|ts| - 1]) + FileIds(ts[|ts| - 1])
  }

  /** A directory gains read, write and execute, a regular file write alone, anything else nothing. */
  ghost predicate Exactly(m: Modes, n: Modes, folders: set<Id>, files: set<Id>) {
    && m.Keys == n.Keys
    && forall i :: i in m ==>
      n[i] ==
        if i in folders then m[i].(r := true, w := true, x := true)
        else if i in files then m[i].(w := true)
        else m[i]
  }

  lemma ExactlyThen(m: Modes, n: Modes, p: Modes, f: set<Id>, g: set<Id>, f2: set<Id>, g2: set<Id>)
    requires Exactly(m, n, f, g) && Exactly(n, p, f2, g2)
    ensures Exactly(m, p, f + f2, g + g2)
  {
  }

  lemma ExactlySearchable(m: Modes, n: Modes, above: seq<Id>, f: set<Id>, g: set<Id>)
    requires Searchable(m, above) && Exactly(m, n, f, g)
    ensures Searchable(n, above)
  {
  }

  /**
    The modes after the repair of a scratch directory that can be reached, inode by inode: its
    directories have gained read, write and execute, its regular files the write bit alone, and no
    other mode has changed.
   */
  lemma {:induction false} ModesAfterRepair(t: Tree, above: seq<Id>, modes: Modes)
    requires t.Folder? && Searchable(modes, above) && RealIds(t) <= modes.Keys
    ensures Exactly(modes, Repair(t, above, modes), FolderIds(t), FileIds(t))
    decreases t, 0
  {
    var changed := Chmod(modes, above, t.id, AddAll);
    assert Exactly(modes, changed, {t.id}, {});
    ExactlySearchable(modes, changed, above, {t.id}, {});
    EntriesExactly(t.entries, above + [t.id], changed);
    ExactlyThen(modes, changed, Repair(t, above, modes), {t.id}, {}, FolderIdsOf(t.entries), FileIdsOf(t.entries));
    assert {} + FileIdsOf(t.entries) == FileIds(t);
  }

  lemma {:induction false} EntriesExactly(ts: seq<Tree>, above: seq<Id>, modes: Modes)
    requires Searchable(modes, above) && RealIdsOf(ts) <= modes.Keys
    ensures Exactly(modes, RepairEntries(ts, above, modes), FolderIdsOf(ts), FileIdsOf(ts))
    decreases ts, 1
  {
    if ts != [] {
      var front, last := ts[..|ts| - 1], ts[|ts| - 1];
      var before := RepairEntries(front, above, modes);
      EntriesExactly(front, above, modes);
      ExactlySearchable(modes, before, above, FolderIdsOf(front), FileIdsOf(front));
      EntryExactly(last, above, before);
      ExactlyThen(modes, before, RepairEntry(last, above, before), FolderIdsOf(front), FileIdsOf(front),
        FolderIds(last),
        FileIds(last));
    }
  }

  lemma {:induction false} EntryExactly(t: Tree, above: seq<Id>, modes: Modes)
    requires Searchable(modes, above) && RealIds(t) <= modes.Keys
    ensures Exactly(modes, RepairEntry(t, above, modes), FolderIds(t), FileIds(t))
    decreases t, 1
  {
    if t.Folder? { ModesAfterRepair(t, above, modes); }
  }

  /** Below a directory that cannot be searched no mode is changed. */
  lemma UnreachableIsUntouched(t: Tree, above: seq<Id>, modes: Modes)
    requires !Searchable(modes, above)
    ensures Repair(t, above, modes) == modes
  {
  }

  /**
    Why each directory is repaired before it is listed: on the original modes, one directory
    without its execute bit hides everything below it.
   */
  lemma RepairIsNeeded() returns (t: Tree, modes: Modes)
    ensures RealIds(t) <= modes.Keys && !CanDelete(t, modes) && CanDelete(t, Repair(t, [], modes))
  {
    var inner := Folder(2, [Regular(3)]);
    t := Folder(1, [inner]);
    modes := map[1 := Mode(true, true, true, 0), 2 := Mode(false, false, false, 0), 3 := Mode(false, false, false, 0)];
    assert [inner][..0] == [] && [Regular(3)][..0] == [];
    assert RealIdsOf([Regular(3)]) == {3} && RealIdsOf([inner]) == {2, 3};
    assert !CanDelete(inner, modes);
    assert !CanDeleteAll([inner], modes);
    ScratchTreeBecomesRemovable(t, [], modes);
  }
}
