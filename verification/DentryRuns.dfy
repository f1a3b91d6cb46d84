/**
 Whole runs of the directory index, and renaming, which composes its operations.
 */
module DentryRuns {
  import opened Bytes
  import opened DentryLayout
  import opened DentryGroup
  import opened DentryIndex
  import opened DentryFile

  datatype Op =
    | CreateOp(name: Name, attr: Attr)
    | DeleteOp(name: Name)
    | LookupOp(name: Name)
    | RenameOp(oldName: Name, name: Name, attr: Attr)
    | ListOp

  datatype Outcome = Done | Full | Found(entry: Entry) | Missing | Listed(entries: seq<Entry>)

  /** File names have 1 to 255 bytes; a group must be able to hold one. */
  predicate ValidName(cfg: Config, name: Name) {
    0 < |name| <= NAME_MAX && Slots(|name|) <= cfg.perGroup
  }

  predicate ValidOp(cfg: Config, op: Op) {
    op.ListOp? || ValidName(cfg, op.name)
  }

  /**
   What a listing of the whole file reports: the number of groups is kept in an int, so that of too
   many nothing is read.
   */
  function Readable(groups: seq<Group>): seq<Entry> {
    if |groups| < TWO_31 then Listing(groups, 0) else []
  }

  ghost function Step(cfg: Config, groups: seq<Group>, op: Op): (seq<Group>, Outcome)
    requires IndexInv(cfg, groups) && ValidOp(cfg, op)
  {
    match op
    case CreateOp(name, attr) =>
      var r := Create(cfg, groups, name, attr);
      (r.groups, if r.Stored? then Done else Full)
    case DeleteOp(name) =>
      (Delete(cfg, groups, name), Done)
    case LookupOp(name) =>
      var r := Find(cfg, groups, name);
      FindCorrect(cfg, groups, name);
      (groups, if r.Some? then Found(EntryAt(groups[r.value.group], r.value.slot)) else Missing)
    case RenameOp(oldName, name, attr) =>
      var r := Rename(cfg, groups, oldName, name, attr);
      (r.groups, if r.Stored? then Done else Full)
    case ListOp => (groups, Listed(Readable(groups)))
  }

  /** `e` is an answer to a search for `name` in the directory `m`. */
  ghost predicate Answers(cfg: Config, m: multiset<Entry>, name: Name, e: Entry) {
    && e in m && Matches(cfg, e.name, name)
    && (e.name == name || forall f :: f in m ==> f.name != name)
  }

  ghost predicate NoMatch(cfg: Config, m: multiset<Entry>, name: Name) {
    forall e :: e in m ==> !Matches(cfg, e.name, name)
  }

  /** Deletion from a plain multiset of entries */
  ghost predicate DirectoryDelete(cfg: Config, m: multiset<Entry>, name: Name, m': multiset<Entry>) {
    if NoMatch(cfg, m, name) then m' == m else exists e :: Answers(cfg, m, name, e) && m == m' + multiset{e}
  }

  /**
   Renaming in one: the new name is removed, added, and then the old one removed; without space it
   stops after the first.
   */
  ghost predicate DirectoryRename(cfg: Config, m: multiset<Entry>, oldName: Name, name: Name, attr: Attr,
                                  out: Outcome, m': multiset<Entry>) {
    exists m1 :: DirectoryDelete(cfg, m, name, m1) &&
                 if out == Done then DirectoryDelete(cfg, m1 + multiset{Entry(name, attr)}, oldName, m')
                 else out == Full && m' == m1
  }

  /** The same operation on a plain multiset of entries. */
  ghost predicate DirectoryStep(cfg: Config, m: multiset<Entry>, op: Op, out: Outcome, m': multiset<Entry>) {
    match op
    case CreateOp(name, attr) =>
      (out == Done && m' == m + multiset{Entry(name, attr)}) || (out == Full && m' == m)
    case DeleteOp(name) =>
      out == Done && DirectoryDelete(cfg, m, name, m')
    case LookupOp(name) =>
      m' == m && if NoMatch(cfg, m, name) then out == Missing else out.Found? && Answers(cfg, m, name, out.entry)
    case RenameOp(oldName, name, attr) => DirectoryRename(cfg, m, oldName, name, attr, out, m')
    case ListOp =>
      && m' == m && out.Listed?
      && (multiset(out.entries) == m || (out.entries == [] && cfg.maxGroups >= TWO_31))
  }

  lemma DeleteRefines(cfg: Config, groups: seq<Group>, name: Name)
    requires IndexInv(cfg, groups)
    ensures var groups' := Delete(cfg, groups, name);
            && IndexInv(cfg, groups') && |groups'| == |groups|
            && DirectoryDelete(cfg, Entries(groups), name, Entries(groups'))
  {
    FindCorrect(cfg, groups, name);
    DeleteCorrect(cfg, groups, name);
    var r := Find(cfg, groups, name);
    if r.Some? {
      assert Answers(cfg, Entries(groups), name, EntryAt(groups[r.value.group], r.value.slot));
    }
  }

  lemma RenameRefines(cfg: Config, groups: seq<Group>, oldName: Name, name: Name, attr: Attr)
    requires IndexInv(cfg, groups) && ValidName(cfg, name)
    ensures var r := Rename(cfg, groups, oldName, name, attr);
            && IndexInv(cfg, r.groups) && MaxDepth(|groups|) <= MaxDepth(|r.groups|) <= MaxDepth(|groups|) + 1
            && DirectoryRename(cfg, Entries(groups), oldName, name, attr,
                               if r.Stored? then Done else Full, Entries(r.groups))
  {
    DeleteRefines(cfg, groups, name);
    var cleared := Delete(cfg, groups, name);
    CreateCorrect(cfg, cleared, name, attr);
    var created := Create(cfg, cleared, name, attr);
    if created.Stored? {
      DeleteRefines(cfg, created.groups, oldName);
    }
    assert DirectoryDelete(cfg, Entries(groups), name, Entries(cleared));
  }

  /** One operation on the file is one operation on the directory it stands for. */
  lemma StepRefines(cfg: Config, groups: seq<Group>, op: Op)
    requires IndexInv(cfg, groups) && ValidOp(cfg, op)
    ensures var (groups', out) := Step(cfg, groups, op);
            && IndexInv(cfg, groups')
            && DirectoryStep(cfg, Entries(groups), op, out, Entries(groups'))
            && MaxDepth(|groups|) <= MaxDepth(|groups'|) <= MaxDepth(|groups|) + 1
            && (op.ListOp? ==>
                 (multiset(out.entries) == Entries(groups) <==> |groups| < TWO_31 || Listing(groups, 0) == []))
  {
    match op {
      case CreateOp(name, attr) =>
        CreateCorrect(cfg, groups, name, attr);
      case DeleteOp(name) =>
        DeleteRefines(cfg, groups, name);
      case LookupOp(name) =>
        FindCorrect(cfg, groups, name);
      case RenameOp(oldName, name, attr) =>
        RenameRefines(cfg, groups, oldName, name, attr);
      case ListOp =>
        assert Listing(groups, 0) != [] ==> Listing(groups, 0)[0] in Entries(groups);
    }
  }

  /** The files met along a run, starting from an empty one, with the outcomes. */
  ghost function Run(cfg: Config, ops: seq<Op>): (r: (seq<Group>, seq<Outcome>))
    requires ValidConfig(cfg) && forall k :: 0 <= k < |ops| ==> ValidOp(cfg, ops[k])
    ensures IndexInv(cfg, r.0) && |r.1| == |ops|
  {
    if ops == [] then
      MaxDepthOfWholeLevels(0);
      ([], [])
    else
      var n := |ops| - 1;
      var (groups, outs) := Run(cfg, ops[..n]);
      StepRefines(cfg, groups, ops[n]);
      var (groups', out) := Step(cfg, groups, ops[n]);
      (groups', outs + [out])
  }

  /** The directory that a run of operations on multisets may end in. */
  ghost predicate DirectoryRun(cfg: Config, ops: seq<Op>, outs: seq<Outcome>, m: multiset<Entry>)
    requires |outs| == |ops|
  {
    if ops == [] then m == multiset{}
    else
      var n := |ops| - 1;
      exists before :: DirectoryRun(cfg, ops[..n], outs[..n], before) && DirectoryStep(cfg, before, ops[n], outs[n], m)
  }

  /** Every run from an empty file behaves as the same run on a multiset of entries. */
  lemma {:induction false} RunRefines(cfg: Config, ops: seq<Op>)
    requires ValidConfig(cfg) && forall k :: 0 <= k < |ops| ==> ValidOp(cfg, ops[k])
    ensures var (groups, outs) := Run(cfg, ops);
            DirectoryRun(cfg, ops, outs, Entries(groups))
  {
    if ops != [] {
      var n := |ops| - 1;
      RunRefines(cfg, ops[..n]);
      var (before, outs) := Run(cfg, ops[..n]);
      StepRefines(cfg, before, ops[n]);
      var (groups, all) := Run(cfg, ops);
      assert all[..n] == outs;
      assert DirectoryRun(cfg, ops[..n], all[..n], Entries(before));
    }
  }

  // ----- renaming -----

  /** No two stored names are equal as far as the index can tell. */
  ghost predicate Unique(cfg: Config, m: multiset<Entry>) {
    && (forall e :: e in m ==> m[e] == 1)
    && (forall e, f :: e in m && f in m && Matches(cfg, e.name, f.name) ==> e == f)
  }

  /** Deleting a name from a directory of distinct names removes all that match it. */
  lemma DeleteUnique(cfg: Config, groups: seq<Group>, name: Name)
    requires IndexInv(cfg, groups) && Unique(cfg, Entries(groups))
    ensures IndexInv(cfg, Delete(cfg, groups, name))
    ensures var m' := Entries(Delete(cfg, groups, name));
            && Unique(cfg, m')
            && forall e :: e in m' <==> e in Entries(groups) && !Matches(cfg, e.name, name)
  {
    DeleteCorrect(cfg, groups, name);
    FindCorrect(cfg, groups, name);
    var m, m' := Entries(groups), Entries(Delete(cfg, groups, name));
    var r := Find(cfg, groups, name);
    if r.Some? {
      var gone := EntryAt(groups[r.value.group], r.value.slot);
      assert m == m' + multiset{gone};
      forall e ensures e in m' <==> e in m && !Matches(cfg, e.name, name) {
        assert m[e] == m'[e] + (if e == gone then 1 else 0);
        if e in m && Matches(cfg, e.name, name) {
          assert Matches(cfg, e.name, gone.name);
        }
      }
      forall e | e in m' ensures m'[e] == 1 {
        assert m[e] == m'[e] + (if e == gone then 1 else 0);
      }
    }
  }

  lemma AddUnique(cfg: Config, m: multiset<Entry>, e: Entry)
    requires Unique(cfg, m) && NoMatch(cfg, m, e.name)
    ensures Unique(cfg, m + multiset{e})
    ensures forall f :: f in m + multiset{e} <==> f in m || f == e
  {
    forall f | f in m + multiset{e} ensures (m + multiset{e})[f] == 1 {
      assert (m + multiset{e})[f] == m[f] + (if f == e then 1 else 0);
    }
  }

  /** hmdfs_rename_dentry when both names live in the same file. */
  ghost function Rename(cfg: Config, groups: seq<Group>, oldName: Name, newName: Name, attr: Attr): Created
    requires IndexInv(cfg, groups) && ValidName(cfg, newName)
  {
    DeleteCorrect(cfg, groups, newName);
    var cleared := Delete(cfg, groups, newName);
    CreateCorrect(cfg, cleared, newName, attr);
    var r := Create(cfg, cleared, newName, attr);
    if r.NoSpace? then r else Stored(Delete(cfg, r.groups, oldName))
  }

  /** What the entries are after a rename, as a condition on each entry. */
  predicate RenamedEntry(cfg: Config, m: multiset<Entry>, oldName: Name, newName: Name, attr: Attr, e: Entry) {
    || (e in m && !Matches(cfg, e.name, oldName) && !Matches(cfg, e.name, newName))
    || (e == Entry(newName, attr) && !Matches(cfg, oldName, newName))
  }

  /**
   A rename that stores the new name replaces both old entries by one, and the
   new name survives exactly when the two names differ for the index: renaming a
   name to itself, or only in case in a case-insensitive index, loses it.  A
   rename that finds no space has already removed the target.
   */
  lemma RenameCorrect(cfg: Config, groups: seq<Group>, oldName: Name, newName: Name, attr: Attr)
    requires IndexInv(cfg, groups) && ValidName(cfg, newName) && Unique(cfg, Entries(groups))
    ensures var m := Entries(groups);
            var r := Rename(cfg, groups, oldName, newName, attr);
            var m' := Entries(r.groups);
            && IndexInv(cfg, r.groups) && Unique(cfg, m')
            && (r.Stored? ==> forall e :: e in m' <==> RenamedEntry(cfg, m, oldName, newName, attr, e))
            && (r.Stored? ==> (Find(cfg, r.groups, newName).Some? <==> !Matches(cfg, oldName, newName)))
            && (r.NoSpace? ==> forall e :: e in m' <==> e in m && !Matches(cfg, e.name, newName))
  {
    DeleteUnique(cfg, groups, newName);
    var cleared := Delete(cfg, groups, newName);
    CreateCorrect(cfg, cleared, newName, attr);
    var created := Create(cfg, cleared, newName, attr);
    if created.Stored? {
      AddUnique(cfg, Entries(cleared), Entry(newName, attr));
      DeleteUnique(cfg, created.groups, oldName);
      var after := Delete(cfg, created.groups, oldName);
      RenameMembers(cfg, Entries(groups), Entries(cleared), Entries(after), oldName, newName, attr);
      RenameSurvival(cfg, groups, oldName, newName, attr, after);
    }
  }

  lemma RenameMembers(cfg: Config, m: multiset<Entry>, cleared: multiset<Entry>, after: multiset<Entry>,
                      oldName: Name, newName: Name, attr: Attr)
    requires forall e :: e in cleared <==> e in m && !Matches(cfg, e.name, newName)
    requires forall e :: e in after <==> e in cleared + multiset{Entry(newName, attr)} && !Matches(cfg, e.name, oldName)
    ensures forall e :: e in after <==> RenamedEntry(cfg, m, oldName, newName, attr, e)
  {
  }

  lemma RenameSurvival(cfg: Config, groups: seq<Group>, oldName: Name, newName: Name, attr: Attr, after: seq<Group>)
    requires IndexInv(cfg, after)
    requires forall e :: e in Entries(after) <==> RenamedEntry(cfg, Entries(groups), oldName, newName, attr, e)
    ensures Find(cfg, after, newName).Some? <==> !Matches(cfg, oldName, newName)
  {
    FindCorrect(cfg, after, newName);
    if !Matches(cfg, oldName, newName) {
      assert RenamedEntry(cfg, Entries(groups), oldName, newName, attr, Entry(newName, attr));
    }
  }

  /**
   Renaming from one file to another: the new file holds the new name once and nothing else that
   matches it, the old file nothing that matches the old name; without space only the target is gone.
   */
  lemma RenameAcross(oldCfg: Config, oldGroups: seq<Group>, newCfg: Config, newGroups: seq<Group>,
                     oldName: Name, newName: Name, attr: Attr)
    requires IndexInv(oldCfg, oldGroups) && Unique(oldCfg, Entries(oldGroups))
    requires IndexInv(newCfg, newGroups) && Unique(newCfg, Entries(newGroups)) && ValidName(newCfg, newName)
    ensures IndexInv(newCfg, Delete(newCfg, newGroups, newName))
    ensures var r := Create(newCfg, Delete(newCfg, newGroups, newName), newName, attr);
            var source := Delete(oldCfg, oldGroups, oldName);
            && IndexInv(newCfg, r.groups) && Unique(newCfg, Entries(r.groups)) && IndexInv(oldCfg, source)
            && (forall e :: e in Entries(r.groups) <==>
                  || (e in Entries(newGroups) && !Matches(newCfg, e.name, newName))
                  || (r.Stored? && e == Entry(newName, attr)))
            && (forall e :: e in Entries(source) <==> e in Entries(oldGroups) && !Matches(oldCfg, e.name, oldName))
  {
    DeleteUnique(oldCfg, oldGroups, oldName);
    DeleteUnique(newCfg, newGroups, newName);
    var cleared := Delete(newCfg, newGroups, newName);
    CreateCorrect(newCfg, cleared, newName, attr);
    AddUnique(newCfg, Entries(cleared), Entry(newName, attr));
  }

  /** hmdfs_rename_dentry; the two files are the same object for a rename within one directory. */
  method RenameDentry(oldName: Name, newName: Name, attr: Attr, oldFile: DentryFile, newFile: DentryFile)
    returns (ok: bool)
    requires oldFile.Valid() && newFile.Valid() && ValidName(newFile.cfg, newName)
    modifies oldFile, newFile
    ensures oldFile.Valid() && newFile.Valid()
    ensures oldFile == newFile ==>
              var r := Rename(newFile.cfg, old(newFile.groups), oldName, newName, attr);
              newFile.groups == r.groups && ok == r.Stored?
    ensures oldFile != newFile ==>
              && IndexInv(newFile.cfg, Delete(newFile.cfg, old(newFile.groups), newName))
              && var r := Create(newFile.cfg, Delete(newFile.cfg, old(newFile.groups), newName), newName, attr);
                 && newFile.groups == r.groups && ok == r.Stored?
                 && oldFile.groups == if ok then Delete(oldFile.cfg, old(oldFile.groups), oldName)
                                       else old(oldFile.groups)
  {
    newFile.DeleteDentry(newName);
    ok := newFile.CreateDentry(newName, attr);
    if !ok {
      return;
    }
    oldFile.DeleteDentry(oldName);
  }
}
