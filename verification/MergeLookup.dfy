/**
 From the merged listing to the merged lookup: which devices are asked for a name that the listing
 shows, for what, and that the lookup then finds it on the devices that hold it.
 */
module MergeLookup {
  import opened Bytes
  import opened ConflictName
  import opened MergeListing
  import opened Comrades

  // ----- who is asked -----

  /** Every device: the local one and all peers */
  function Everyone(peers: seq<int>): seq<int> {
    [LOCAL] + peers
  }

  lemma {:induction false} AllChosen(kind: EntryKind, owner: int, peers: seq<int>)
    requires !kind.Reg?
    ensures Chosen(kind, owner, peers) == peers
  {
    if peers != [] {
      AllChosen(kind, owner, peers[..|peers| - 1]);
    }
  }

  /** A plain name is asked of every device, each once, under that name and with its kind open. */
  lemma PlainAsksEveryone(name: string, peers: seq<int>)
    requires Classify(name) == Plain && ValidPeers(peers)
    ensures RealName(name) == (Unknown, -1, name)
    ensures Workers(Unknown, -1, peers) == Everyone(peers) && Comrades.Distinct(Everyone(peers))
  {
    AllChosen(Unknown, -1, peers);
    WorkersAre(Unknown, -1, peers);
  }

  /** The name of a directory in conflict is asked of every device, under its real name, for directories only. */
  lemma ConflictDirAsksEveryone(name: string, peers: seq<int>)
    requires Classify(name) == Plain && NoSlash(name) && ValidPeers(peers)
    ensures RealName(MangleDir(name)) == (EntryKind.Dir, -1, name)
    ensures Workers(EntryKind.Dir, -1, peers) == Everyone(peers)
  {
    PlainRoundTrip(name, 0);
    AllChosen(EntryKind.Dir, -1, peers);
  }

  // ----- what is found -----

  /** What each device holds in its own directory: names, and whether each is a directory */
  type Holdings = map<int, map<string, bool>>

  predicate Holds(h: Holdings, dev: int, name: string, isDir: bool) {
    dev in h && name in h[dev] && h[dev][name] == isDir
  }

  /** What a device that is asked for `name` finds */
  function AnswerOf(h: Holdings, dev: int, name: string): Answer {
    if dev in h && name in h[dev] then Found(h[dev][name]) else NotFound
  }

  function AnswersOf(h: Holdings, asked: seq<int>, name: string): map<int, Answer> {
    map d | d in asked :: AnswerOf(h, d, name)
  }

  /** The merged lookup of `shown`, with the workers finishing in this order */
  function Lookup(h: Holdings, peers: seq<int>, shown: string, order: seq<int>): Info
    requires var (kind, owner, own) := RealName(shown);
             Complete(AnswersOf(h, Workers(kind, owner, peers), own), order)
  {
    var (kind, owner, own) := RealName(shown);
    After(kind, AnswersOf(h, Workers(kind, owner, peers), own), order)
  }

  /** Whatever joined holds the name and is of the kind that was found. */
  lemma FoundIsHeld(kind: EntryKind, h: Holdings, asked: seq<int>, name: string, order: seq<int>)
    requires Complete(AnswersOf(h, asked, name), order)
    ensures var m := After(kind, AnswersOf(h, asked, name), order);
            forall i :: 0 <= i < |m.list| ==> m.list[i].dev in asked && Holds(h, m.list[i].dev, name, m.list[i].isDir)
  {
    AfterInv(kind, AnswersOf(h, asked, name), order);
  }

  /** A plain name is found if and only if some device holds it, and on devices that do. */
  lemma PlainLookup(h: Holdings, peers: seq<int>, name: string, order: seq<int>)
    requires Classify(name) == Plain && ValidPeers(peers)
    requires Complete(AnswersOf(h, Everyone(peers), name), order)
    ensures RealName(name) == (Unknown, -1, name) && Workers(Unknown, -1, peers) == Everyone(peers)
    ensures var m := Lookup(h, peers, name, order);
            && (m.list != [] <==>
                 exists d :: d in Everyone(peers) && (Holds(h, d, name, true) || Holds(h, d, name, false)))
            && (forall i :: 0 <= i < |m.list| ==> Holds(h, m.list[i].dev, name, m.list[i].isDir))
            && (m.kind.Dir? ==> Devs(m.list) == set d | d in Everyone(peers) && Holds(h, d, name, true))
            && (m.kind.Reg? ==> |m.list| == 1)
  {
    PlainAsksEveryone(name, peers);
    var answers := AnswersOf(h, Everyone(peers), name);
    LookupOutcome(Unknown, answers, order);
    FoundIsHeld(Unknown, h, Everyone(peers), name, order);
    AfterInv(Unknown, answers, order);
    var m := After(Unknown, answers, order);
    if d :| d in Everyone(peers) && (Holds(h, d, name, true) || Holds(h, d, name, false)) {
      assert d in answers && Acceptable(Unknown, answers[d]);
    }
  }

  /**
   The name of a directory in conflict is found if and only if some device holds the directory, on
   exactly those that do.
   */
  lemma ConflictDirLookup(h: Holdings, peers: seq<int>, name: string, order: seq<int>)
    requires Classify(name) == Plain && NoSlash(name) && ValidPeers(peers)
    requires Complete(AnswersOf(h, Everyone(peers), name), order)
    ensures RealName(MangleDir(name)) == (EntryKind.Dir, -1, name)
            && Workers(EntryKind.Dir, -1, peers) == Everyone(peers)
    ensures var m := Lookup(h, peers, MangleDir(name), order);
            m.kind.Dir? && Devs(m.list) == set d | d in Everyone(peers) && Holds(h, d, name, true)
  {
    ConflictDirAsksEveryone(name, peers);
    DirOutcome(h, Everyone(peers), name, order);
  }

  lemma DirOutcome(h: Holdings, asked: seq<int>, name: string, order: seq<int>)
    requires Complete(AnswersOf(h, asked, name), order)
    ensures var m := After(EntryKind.Dir, AnswersOf(h, asked, name), order);
            m.kind.Dir? && Devs(m.list) == set d | d in asked && Holds(h, d, name, true)
  {
    var answers := AnswersOf(h, asked, name);
    LookupOutcome(EntryKind.Dir, answers, order);
    AfterInv(EntryKind.Dir, answers, order);
  }

  /** The name of a file in conflict is found on its device, and there only, if that holds the file. */
  lemma ConflictFileLookup(h: Holdings, peers: seq<int>, name: string, dev: nat, order: seq<int>)
    requires Classify(name) == Plain && NoSlash(name) && dev < TWO_31
    requires ValidPeers(peers) && (dev == LOCAL || dev in peers) && Holds(h, dev, name, false)
    requires Complete(AnswersOf(h, [dev], name), order)
    ensures RealName(MangleFile(name, dev)) == (EntryKind.Reg, dev, name)
    ensures Workers(EntryKind.Reg, dev, peers) == [dev]
    ensures Lookup(h, peers, MangleFile(name, dev), order).list == [Comrade(dev, false)]
  {
    ConflictNameAsksItsDevice(name, dev, peers);
    var answers := AnswersOf(h, [dev], name);
    LookupOutcome(EntryKind.Reg, answers, order);
    AfterInv(EntryKind.Reg, answers, order);
    assert dev in answers && Acceptable(EntryKind.Reg, answers[dev]);
  }

  // ----- from listing to lookup -----

  /** The device of an item holds its entry; what is not a directory is a file to the lookup. */
  predicate HeldItem(h: Holdings, peers: seq<int>, it: Shown) {
    && (it.dev == LOCAL || it.dev in peers) && it.dev < TWO_31 && NoSlash(it.form.name)
         && Classify(it.form.name) == Plain
    && Holds(h, it.dev, it.form.name, it.kind.Dir?)
    && (it.form.OfDevice? ==> it.form.dev == it.dev && !it.kind.Dir?)
    && (it.form.AsDirectory? ==> it.kind.Dir?)
  }

  function Asked(peers: seq<int>, form: Label): seq<int> {
    if form.OfDevice? then [form.dev] else Everyone(peers)
  }

  /** The lookup finds the item's entry, on devices that hold it. */
  predicate FindsItem(h: Holdings, it: Shown, m: Info) {
    && m.list != []
    && (forall i :: 0 <= i < |m.list| ==> Holds(h, m.list[i].dev, it.form.name, m.list[i].isDir))
    && (it.form.OfDevice? ==> m.list == [Comrade(it.dev, false)])
    && (it.form.AsDirectory? ==> m.kind.Dir? && it.dev in Devs(m.list))
  }

  /** The question that looking up an item puts to the devices */
  predicate AsksRightly(peers: seq<int>, form: Label) {
    var (kind, owner, own) := RealName(Render(form));
    own == form.name && Workers(kind, owner, peers) == Asked(peers, form)
  }

  lemma PlainItemFound(h: Holdings, peers: seq<int>, it: Shown, order: seq<int>)
    requires ValidPeers(peers) && HeldItem(h, peers, it) && it.form.AsIs?
    requires Complete(AnswersOf(h, Everyone(peers), it.form.name), order)
    ensures AsksRightly(peers, it.form) && FindsItem(h, it, Lookup(h, peers, it.form.name, order))
  {
    PlainLookup(h, peers, it.form.name, order);
    assert it.dev in Everyone(peers);
  }

  lemma NoDevs(list: seq<Comrade>)
    ensures list == [] ==> Devs(list) == {}
  {
  }

  lemma DirItemFound(h: Holdings, peers: seq<int>, it: Shown, order: seq<int>)
    requires ValidPeers(peers) && HeldItem(h, peers, it) && it.form.AsDirectory?
    requires Complete(AnswersOf(h, Everyone(peers), it.form.name), order)
    ensures AsksRightly(peers, it.form) && FindsItem(h, it, Lookup(h, peers, MangleDir(it.form.name), order))
  {
    ConflictDirLookup(h, peers, it.form.name, order);
    FoundIsHeld(EntryKind.Dir, h, Everyone(peers), it.form.name, order);
    assert it.dev in Everyone(peers);
    var m := Lookup(h, peers, MangleDir(it.form.name), order);
    assert it.dev in Devs(m.list);
    NoDevs(m.list);
    assert m == After(EntryKind.Dir, AnswersOf(h, Everyone(peers), it.form.name), order);
    forall i | 0 <= i < |m.list| ensures Holds(h, m.list[i].dev, it.form.name, m.list[i].isDir) {
    }
  }

  lemma FileItemFound(h: Holdings, peers: seq<int>, it: Shown, order: seq<int>)
    requires ValidPeers(peers) && HeldItem(h, peers, it) && it.form.OfDevice?
    requires Complete(AnswersOf(h, [it.form.dev], it.form.name), order)
    ensures AsksRightly(peers, it.form)
            && FindsItem(h, it, Lookup(h, peers, MangleFile(it.form.name, it.form.dev), order))
  {
    ConflictFileLookup(h, peers, it.form.name, it.form.dev, order);
  }

  /** Whatever name the merged listing shows, looking it up finds it on a device that holds the entry. */
  lemma ShownIsFound(h: Holdings, peers: seq<int>, it: Shown, order: seq<int>)
    requires ValidPeers(peers) && HeldItem(h, peers, it)
    requires Complete(AnswersOf(h, Asked(peers, it.form), it.form.name), order)
    ensures AsksRightly(peers, it.form) && FindsItem(h, it, Lookup(h, peers, Render(it.form), order))
  {
    if it.form.AsIs? {
      PlainItemFound(h, peers, it, order);
    } else if it.form.OfDevice? {
      FileItemFound(h, peers, it, order);
    } else {
      DirItemFound(h, peers, it, order);
    }
  }
}
