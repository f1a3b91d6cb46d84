/**
 The listing of a merged directory: every device's entries are presented to one
 actor, which shows each directory once and gives a file whose name is taken the
 name of its device.
 */
module MergeListing {
  import opened Bytes
  import opened ConflictName
  import opened NameTree

  datatype FileType = Reg | Dir | Lnk

  /** An entry of a lower directory; `accepted` is whether the caller's buffer takes what is shown for it. */
  datatype Presented = Presented(dev: nat, name: string, kind: FileType, accepted: bool)

  /** The three ways to show an entry. */
  datatype Label = AsIs(name: string) | OfDevice(name: string, dev: nat) | AsDirectory(name: string)

  function Render(l: Label): string {
    match l
    case AsIs(name) => name
    case OfDevice(name, dev) => MangleFile(name, dev)
    case AsDirectory(name) => MangleDir(name)
  }

  /** An item shown: how, and for which entry. */
  datatype Shown = Shown(form: Label, kind: FileType, dev: nat)

  /** The names already shown, with the type that decides the next conflict. */
  type Seen = map<string, FileType>

  datatype Outcome = Outcome(seen: Seen, item: Option<Shown>, goOn: bool)

  predicate IsDot(name: string) {
    name == "." || name == ".."
  }

  /** How an entry is shown; None when the mangled name would not fit. */
  function ShownAs(seen: Seen, p: Presented): Option<Label> {
    if p.name !in seen then Some(AsIs(p.name))
    else if p.kind.Dir? then (if DirGuard(p.name) then Some(AsDirectory(p.name)) else None)
    else if FileGuard(p.name) then Some(OfDevice(p.name, p.dev))
    else None
  }

  /** hmdfs_actor_merge */
  function Actor(seen: Seen, p: Presented): Outcome {
    if IsDot(p.name) then Outcome(seen, None, true)
    else if |p.name| > NAME_MAX then Outcome(seen, None, false)
    else if p.kind.Dir? && p.name in seen && seen[p.name].Dir? then Outcome(seen, None, true)
    else
      var shown := ShownAs(seen, p);
      if shown.None? then Outcome(seen, None, false)
      else if p.accepted then
        Outcome(if p.kind.Dir? || p.name !in seen then seen[p.name := p.kind] else seen,
                Some(Shown(shown.value, p.kind, p.dev)), true)
      else
        Outcome(if p.kind.Dir? && p.name in seen then seen[p.name := Reg] else seen, None, false)
  }

  /** A directory whose name already stands for one */
  predicate Repeated(seen: Seen, p: Presented) {
    |p.name| <= NAME_MAX && p.kind.Dir? && p.name in seen && seen[p.name].Dir?
  }

  /** A name of legal length that is not taken, or with room for the suffix of a taken one */
  predicate Fitting(seen: Seen, p: Presented) {
    && |p.name| <= NAME_MAX
    && (p.name in seen ==> |p.name| + (if p.kind.Dir? then |DIR_SUFFIX| else |FILE_SUFFIX| + 4) <= NAME_MAX)
  }

  /** The tree of names, changed in place as the code changes it. */
  class MergeTree {
    var root: Tree<FileType>

    ghost predicate Valid()
      reads this
    {
      Sorted(root)
    }

    ghost function View(): Seen
      reads this
    {
      Contents(root)
    }

    constructor ()
      ensures Valid() && View() == map[]
    {
      root := Leaf;
    }

    /** The descent that insert_filename and delete_filename share: the type stored with an equal name */
    method Find(name: string) returns (found: Option<FileType>)
      requires Valid()
      ensures found == if name in View() then Some(View()[name]) else None
    {
      var node := root;
      while node.Node?
        invariant Sorted(node)
        invariant name in View() <==> name in Contents(node)
        invariant name in View() ==> View()[name] == Contents(node)[name]
        decreases node
      {
        var res := Compare(name, node.name);
        OneSide(node, name);
        At(node, name);
        if res == 0 {
          return Some(node.value);
        }
        if res < 0 {
          node := node.left;
        } else {
          node := node.right;
        }
      }
      found := None;
    }

    /**
     insert_filename: the type of an equal name already there, or None after inserting;
     rb_insert_color may make any rotations `turns`.
     */
    method Insert(name: string, kind: FileType, turns: seq<Turn>) returns (existing: Option<FileType>)
      requires Valid()
      modifies this
      ensures Valid()
      ensures existing == if name in old(View()) then Some(old(View())[name]) else None
      ensures View() == if existing.Some? then old(View()) else old(View())[name := kind]
    {
      existing := Find(name);
      if existing.None? {
        LinkedCorrect(root, name, kind);
        TurnedCorrect(Linked(root, name, kind), turns);
        root := Turned(Linked(root, name, kind), turns);
      }
    }

    /** delete_filename, with the rotations of rb_erase */
    method Delete(name: string, turns: seq<Turn>)
      requires Valid()
      modifies this
      ensures Valid() && View() == old(View()) - {name}
    {
      var existing := Find(name);
      if existing.Some? {
        ErasedCorrect(root, name);
        TurnedCorrect(Erased(root, name), turns);
        root := Turned(Erased(root, name), turns);
      }
    }

    /** The write to the type of an entry in the tree */
    method Assign(name: string, kind: FileType)
      requires Valid() && name in View()
      modifies this
      ensures Valid() && View() == old(View())[name := kind]
    {
      AssignedCorrect(root, name, kind);
      root := Assigned(root, name, kind);
    }

    /** hmdfs_actor_merge: insert first, undo on refusal. */
    method Present(p: Presented, turns: seq<Turn>, back: seq<Turn>) returns (emitted: Option<string>, goOn: bool)
      requires Valid() && NoSlash(p.name)
      modifies this
      ensures Valid()
      ensures var r := Actor(old(View()), p);
              && View() == r.seen && goOn == r.goOn
              && emitted == if r.item.Some? then Some(Render(r.item.value.form)) else None
      ensures goOn <==> IsDot(p.name) || Repeated(old(View()), p) || (p.accepted && Fitting(old(View()), p))
      ensures emitted.Some? <==> !IsDot(p.name) && !Repeated(old(View()), p) && p.accepted && Fitting(old(View()), p)
    {
      emitted := None;
      if IsDot(p.name) {
        return None, true;
      }
      if |p.name| > NAME_MAX {
        return None, false;
      }
      NoSlashSameDot(p.name, |p.name|);
      var shown := p.name;
      var existing := Insert(p.name, p.kind, turns);
      if p.kind.Dir? && existing == Some(Dir) {
        return None, true;
      } else if p.kind.Dir? && existing.Some? {
        if |DIR_SUFFIX| > NAME_MAX - |p.name| {
          return None, false;
        }
        shown := MangleDir(p.name);
        Assign(p.name, Dir);
      } else if existing.Some? {
        if |FILE_SUFFIX| + 2 + 2 > NAME_MAX - |p.name| {
          return None, false;
        }
        shown := RenameConflictingFile(p.name, p.dev);
      }
      goOn := p.accepted;
      if goOn {
        emitted := Some(shown);
      } else {
        if p.kind.Dir? && existing.Some? {
          Assign(p.name, Reg);
        }
        if existing.None? {
          Delete(p.name, back);
        }
      }
    }
  }

  // ----- refusals -----

  /** The same names, with regular files and links not told apart. */
  predicate Equivalent(a: Seen, b: Seen) {
    a.Keys == b.Keys && forall n :: n in a ==> (a[n].Dir? <==> b[n].Dir?)
  }

  /** Equivalent trees show the same thing and stay equivalent. */
  lemma EquivalentShowsSame(a: Seen, b: Seen, p: Presented)
    requires Equivalent(a, b)
    ensures Actor(a, p).item == Actor(b, p).item && Actor(a, p).goOn == Actor(b, p).goOn
    ensures Equivalent(Actor(a, p).seen, Actor(b, p).seen)
  {
  }

  // ----- whole listings -----

  /** All that is shown for a sequence of presented entries. */
  function Listing(ps: seq<Presented>): (Seen, seq<Shown>) {
    if ps == [] then (map[], [])
    else
      var n := |ps| - 1;
      var (seen, items) := Listing(ps[..n]);
      var r := Actor(seen, ps[n]);
      (r.seen, if r.item.Some? then items + [r.item.value] else items)
  }

  /** Lower names are plain, and one device accepts no two entries of the same name. */
  ghost predicate ValidInput(ps: seq<Presented>) {
    && (forall i :: 0 <= i < |ps| ==> Classify(ps[i].name) == Plain && NoSlash(ps[i].name))
    && (forall i, j :: 0 <= i < j < |ps| && ps[i].accepted && ps[j].accepted ==>
         ps[i].dev != ps[j].dev || ps[i].name != ps[j].name)
  }

  /** Why an item is shown the way it is, given the tree. */
  predicate Justified(seen: Seen, it: Shown) {
    && it.form.name in seen
    && (it.kind.Dir? ==> seen[it.form.name].Dir?)
    && match it.form
       case AsIs(_) => true
       case OfDevice(_, dev) => !it.kind.Dir? && dev == it.dev
       case AsDirectory(_) => it.kind.Dir?
  }

  predicate IsEntry(p: Presented, it: Shown) {
    p.accepted && p.dev == it.dev && p.name == it.form.name && p.kind == it.kind
  }

  predicate FromInput(ps: seq<Presented>, it: Shown) {
    exists k :: 0 <= k < |ps| && IsEntry(ps[k], it)
  }

  predicate ShownPlain(items: seq<Shown>, n: string) {
    exists i :: 0 <= i < |items| && items[i].form == AsIs(n)
  }

  predicate ShownDir(items: seq<Shown>, n: string) {
    exists i :: 0 <= i < |items| && items[i].kind.Dir? && items[i].form.name == n
  }

  predicate AllJustified(ps: seq<Presented>, seen: Seen, items: seq<Shown>) {
    forall i :: 0 <= i < |items| ==> Justified(seen, items[i]) && FromInput(ps, items[i])
  }

  predicate Distinct(items: seq<Shown>) {
    forall i, j :: 0 <= i < j < |items| ==> items[i].form != items[j].form
  }

  predicate DirsOnce(items: seq<Shown>) {
    forall i, j :: 0 <= i < j < |items| && items[i].kind.Dir? && items[j].kind.Dir? ==>
      items[i].form.name != items[j].form.name
  }

  ghost predicate SeenIsShown(seen: Seen, items: seq<Shown>) {
    && (forall n :: n in seen ==> ShownPlain(items, n))
    && (forall n :: n in seen && seen[n].Dir? ==> ShownDir(items, n))
  }

  lemma Kinds(l: Label)
    requires Classify(l.name) == Plain
    ensures Classify(Render(l)) == if l.AsIs? then Plain else if l.OfDevice? then MangledFile else MangledDir
    ensures l.AsDirectory? ==> |Render(l)| >= |DIR_SUFFIX| && UnmangleDir(Render(l)) == l.name
  {
    if l.OfDevice? {
      MangleFileRoundTrip(l.name, l.dev);
      PlainExtension(l.name);
    } else if l.AsDirectory? {
      assert MangleDir(l.name)[|l.name|..] == DIR_SUFFIX;
    }
  }

  /** Different ways of showing plain names never collide. */
  lemma RenderInjective(a: Label, b: Label)
    requires Classify(a.name) == Plain && Classify(b.name) == Plain && Render(a) == Render(b)
    ensures a == b
  {
    Kinds(a);
    Kinds(b);
    if a.OfDevice? {
      MangleInjective(a.name, a.dev, b.name, b.dev);
    }
  }

  lemma FromInputGrows(ps: seq<Presented>, p: Presented, it: Shown)
    ensures FromInput(ps, it) || IsEntry(p, it) ==> FromInput(ps + [p], it)
  {
    var qs := ps + [p];
    if FromInput(ps, it) {
      var k :| 0 <= k < |ps| && IsEntry(ps[k], it);
      assert qs[k] == ps[k];
    }
    assert qs[|ps|] == p;
  }

  /** The device has not had an entry of this name accepted before. */
  predicate NewOnDevice(ps: seq<Presented>, p: Presented) {
    p.accepted ==> forall k :: 0 <= k < |ps| && ps[k].accepted ==> ps[k].dev != p.dev || ps[k].name != p.name
  }

  /** What is shown for the next entry differs from all that was shown. */
  lemma NextIsNew(ps: seq<Presented>, seen: Seen, items: seq<Shown>, p: Presented, k: nat)
    requires AllJustified(ps, seen, items) && NewOnDevice(ps, p)
    requires Actor(seen, p).item.Some? && k < |items|
    ensures var it := Actor(seen, p).item.value;
            && items[k].form != it.form
            && (items[k].kind.Dir? && it.kind.Dir? ==> items[k].form.name != it.form.name)
  {
    assert Justified(seen, items[k]) && FromInput(ps, items[k]);
  }

  lemma StepJustified(ps: seq<Presented>, seen: Seen, items: seq<Shown>, p: Presented)
    requires AllJustified(ps, seen, items)
    ensures var r := Actor(seen, p);
            AllJustified(ps + [p], r.seen, if r.item.Some? then items + [r.item.value] else items)
  {
    var r := Actor(seen, p);
    forall k | 0 <= k < |items| ensures Justified(r.seen, items[k]) && FromInput(ps + [p], items[k]) {
      assert Justified(seen, items[k]);
      FromInputGrows(ps, p, items[k]);
    }
    if r.item.Some? {
      FromInputGrows(ps, p, r.item.value);
    }
  }

  lemma StepSeenIsShown(seen: Seen, items: seq<Shown>, p: Presented)
    requires SeenIsShown(seen, items)
    ensures var r := Actor(seen, p);
            SeenIsShown(r.seen, if r.item.Some? then items + [r.item.value] else items)
  {
    var r := Actor(seen, p);
    var after := if r.item.Some? then items + [r.item.value] else items;
    forall n | n in r.seen ensures ShownPlain(after, n) && (r.seen[n].Dir? ==> ShownDir(after, n)) {
      if n in seen {
        var i :| 0 <= i < |items| && items[i].form == AsIs(n);
        assert after[i] == items[i];
        if seen[n].Dir? {
          var d :| 0 <= d < |items| && items[d].kind.Dir? && items[d].form.name == n;
          assert after[d] == items[d];
        }
      }
      if r.item.Some? {
        assert after[|items|] == r.item.value;
      }
    }
  }

  lemma StepDistinct(ps: seq<Presented>, seen: Seen, items: seq<Shown>, p: Presented)
    requires AllJustified(ps, seen, items) && NewOnDevice(ps, p) && Distinct(items) && DirsOnce(items)
    ensures var r := Actor(seen, p);
            var after := if r.item.Some? then items + [r.item.value] else items;
            Distinct(after) && DirsOnce(after)
  {
    if Actor(seen, p).item.Some? {
      forall k | 0 <= k < |items|
        ensures var it := Actor(seen, p).item.value;
                && items[k].form != it.form
                && (items[k].kind.Dir? && it.kind.Dir? ==> items[k].form.name != it.form.name)
      {
        NextIsNew(ps, seen, items, p, k);
      }
    }
  }

  lemma {:induction false} ListingInv(ps: seq<Presented>)
    requires ValidInput(ps)
    ensures var (seen, items) := Listing(ps);
            && Distinct(items) && DirsOnce(items) && AllJustified(ps, seen, items) && SeenIsShown(seen, items)
  {
    if ps != [] {
      var n := |ps| - 1;
      ListingInv(ps[..n]);
      var (seen, items) := Listing(ps[..n]);
      assert ps[..n] + [ps[n]] == ps;
      StepJustified(ps[..n], seen, items, ps[n]);
      StepSeenIsShown(seen, items, ps[n]);
      StepDistinct(ps[..n], seen, items, ps[n]);
    }
  }

  /**
   Over every sequence of presentations, refusals included: no two items are shown
   under the same name, a directory name is shown once, every item is an accepted
   entry, and every name in the tree has been shown.
   */
  lemma ListingCorrect(ps: seq<Presented>)
    requires ValidInput(ps)
    ensures var (seen, items) := Listing(ps);
            && (forall i, j :: 0 <= i < j < |items| ==> Render(items[i].form) != Render(items[j].form))
            && DirsOnce(items)
            && (forall i :: 0 <= i < |items| ==> FromInput(ps, items[i]))
            && (forall n :: n in seen ==> ShownPlain(items, n))
            && (forall n :: n in seen && seen[n].Dir? ==> ShownDir(items, n))
  {
    ListingInv(ps);
    var (seen, items) := Listing(ps);
    forall i, j | 0 <= i < j < |items| ensures Render(items[i].form) != Render(items[j].form) {
      PlainItem(ps, items[i]);
      PlainItem(ps, items[j]);
      if Render(items[i].form) == Render(items[j].form) {
        RenderInjective(items[i].form, items[j].form);
      }
    }
  }

  lemma PlainItem(ps: seq<Presented>, it: Shown)
    requires ValidInput(ps) && FromInput(ps, it)
    ensures Classify(it.form.name) == Plain
  {
    var k :| 0 <= k < |ps| && IsEntry(ps[k], it);
    assert Classify(ps[k].name) == Plain;
  }

  // ----- each entry once -----

  /**
   An entry that can be shown: no dot name, of legal length, and with room for the name it needs if its
   own is taken.
   */
  predicate Showable(seen: Seen, p: Presented) {
    && !IsDot(p.name) && |p.name| <= NAME_MAX
    && ((p.kind.Dir? && p.name in seen && seen[p.name].Dir?) || ShownAs(seen, p).Some?)
  }

  lemma {:induction false} ItemsStay(ps: seq<Presented>, k: nat)
    requires k <= |ps|
    ensures Listing(ps[..k]).1 <= Listing(ps).1
  {
    if k < |ps| {
      var n := |ps| - 1;
      assert ps[..n][..k] == ps[..k];
      ItemsStay(ps[..n], k);
    } else {
      assert ps[..k] == ps;
    }
  }

  /** `i` is the only item that shows the entry `p`. */
  predicate ShownOnlyAt(items: seq<Shown>, p: Presented, i: int) {
    && 0 <= i < |items| && IsEntry(p, items[i])
    && forall j :: 0 <= j < |items| && items[j].dev == p.dev && items[j].form.name == p.name ==> j == i
  }

  /** No two items are about the same name of the same device. */
  lemma OneItemEach(ps: seq<Presented>, i: nat, j: nat)
    requires ValidInput(ps) && i < j < |Listing(ps).1|
    ensures var items := Listing(ps).1; items[i].dev != items[j].dev || items[i].form.name != items[j].form.name
  {
    SourcesRise(ps);
    var items := Listing(ps).1;
    var sources := Sources(ps);
    assert IsEntry(ps[sources[i]], items[i]) && IsEntry(ps[sources[j]], items[j]);
  }

  /** Where each item comes from */
  function Sources(ps: seq<Presented>): seq<nat> {
    if ps == [] then []
    else
      var n := |ps| - 1;
      if Actor(Listing(ps[..n]).0, ps[n]).item.Some? then Sources(ps[..n]) + [n] else Sources(ps[..n])
  }

  predicate ComeFrom(ps: seq<Presented>, items: seq<Shown>, sources: seq<nat>) {
    && |sources| == |items|
    && (forall i :: 0 <= i < |items| ==> sources[i] < |ps| && IsEntry(ps[sources[i]], items[i]))
    && (forall i, j :: 0 <= i < j < |items| ==> sources[i] < sources[j])
  }

  lemma ComeFromStep(ps: seq<Presented>, items: seq<Shown>, sources: seq<nat>, p: Presented, it: Shown)
    requires ComeFrom(ps, items, sources)
    ensures ComeFrom(ps + [p], items, sources)
    ensures IsEntry(p, it) ==> ComeFrom(ps + [p], items + [it], sources + [|ps|])
  {
  }

  lemma ItemIsEntry(seen: Seen, p: Presented)
    ensures Actor(seen, p).item.Some? ==> IsEntry(p, Actor(seen, p).item.value)
  {
  }

  /** The items come from accepted entries, in order, each from its own. */
  lemma {:induction false} SourcesRise(ps: seq<Presented>)
    ensures ComeFrom(ps, Listing(ps).1, Sources(ps))
  {
    if ps != [] {
      var n := |ps| - 1;
      SourcesRise(ps[..n]);
      var (seen, items) := Listing(ps[..n]);
      var r := Actor(seen, ps[n]).item;
      ItemIsEntry(seen, ps[n]);
      assert ps[..n] + [ps[n]] == ps;
      if r.Some? {
        ComeFromStep(ps[..n], items, Sources(ps[..n]), ps[n], r.value);
      } else {
        ComeFromStep(ps[..n], items, Sources(ps[..n]), ps[n], Shown(AsIs(""), Reg, 0));
      }
    }
  }

  /** The item made for entry `k` is the only one about it. */
  lemma OnlyItem(ps: seq<Presented>, k: nat, i: nat)
    requires ValidInput(ps) && k < |ps| && i < |Listing(ps).1| && IsEntry(ps[k], Listing(ps).1[i])
    ensures ShownOnlyAt(Listing(ps).1, ps[k], i)
  {
    var items := Listing(ps).1;
    forall j | 0 <= j < |items| && j != i ensures items[j].dev != ps[k].dev || items[j].form.name != ps[k].name {
      OneItemEach(ps, if i < j then i else j, if i < j then j else i);
    }
  }

  /**
   Over every sequence of entries and refusals: each accepted file has exactly one item, and
   a directory name that was accepted from any device has one.
   */
  lemma EachOnce(ps: seq<Presented>, k: nat) returns (i: nat)
    requires ValidInput(ps) && k < |ps| && ps[k].accepted && Showable(Listing(ps[..k]).0, ps[k])
    ensures var items := Listing(ps).1;
            if ps[k].kind.Dir? then i < |items| && items[i].kind.Dir? && items[i].form.name == ps[k].name
            else ShownOnlyAt(items, ps[k], i)
  {
    var seen := Listing(ps[..k]).0;
    ShowableIsShown(seen, ps[k]);
    if Actor(seen, ps[k]).item.Some? {
      i := ItemMade(ps, k);
      OnlyItem(ps, k, i);
    } else {
      i := DirectoryShown(ps, k);
    }
  }

  /** An accepted entry that can be shown is shown, unless it is a directory whose name already stands for one. */
  lemma ShowableIsShown(seen: Seen, p: Presented)
    requires p.accepted && Showable(seen, p)
    ensures Actor(seen, p).item.None? <==> p.kind.Dir? && p.name in seen && seen[p.name].Dir?
  {
  }

  lemma ItemMade(ps: seq<Presented>, k: nat) returns (i: nat)
    requires k < |ps| && Actor(Listing(ps[..k]).0, ps[k]).item.Some?
    ensures i < |Listing(ps).1| && IsEntry(ps[k], Listing(ps).1[i])
  {
    var (seen, before) := Listing(ps[..k]);
    ItemIsEntry(seen, ps[k]);
    assert ps[..k + 1][..k] == ps[..k];
    ItemsStay(ps, k + 1);
    i := |before|;
  }

  lemma DirectoryShown(ps: seq<Presented>, k: nat) returns (i: nat)
    requires ValidInput(ps) && k < |ps|
    requires var seen := Listing(ps[..k]).0; ps[k].name in seen && seen[ps[k].name].Dir?
    ensures var items := Listing(ps).1; i < |items| && items[i].kind.Dir? && items[i].form.name == ps[k].name
  {
    var (seen, before) := Listing(ps[..k]);
    ValidPrefix(ps, k);
    ListingInv(ps[..k]);
    assert ShownDir(before, ps[k].name);
    i :| 0 <= i < |before| && before[i].kind.Dir? && before[i].form.name == ps[k].name;
    ItemsStay(ps, k);
  }

  lemma ValidPrefix(ps: seq<Presented>, k: nat)
    requires ValidInput(ps) && k <= |ps|
    ensures ValidInput(ps[..k])
  {
  }

  // ----- refusals leave no trace -----

  function AcceptedOnly(ps: seq<Presented>): seq<Presented> {
    if ps == [] then []
    else
      var n := |ps| - 1;
      if ps[n].accepted then AcceptedOnly(ps[..n]) + [ps[n]] else AcceptedOnly(ps[..n])
  }

  lemma RefusedStep(seen: Seen, p: Presented)
    requires !p.accepted
    ensures Actor(seen, p).item.None? && Equivalent(Actor(seen, p).seen, seen)
  {
  }

  /** What a listing shows is what it would show if the refused entries had never been presented. */
  lemma {:induction false} RefusalsLeaveNoTrace(ps: seq<Presented>)
    ensures Listing(ps).1 == Listing(AcceptedOnly(ps)).1 && Equivalent(Listing(ps).0, Listing(AcceptedOnly(ps)).0)
  {
    if ps != [] {
      var n := |ps| - 1;
      RefusalsLeaveNoTrace(ps[..n]);
      var (seen, _) := Listing(ps[..n]);
      if ps[n].accepted {
        var rest := AcceptedOnly(ps[..n]);
        assert (rest + [ps[n]])[..|rest|] == rest;
        EquivalentShowsSame(seen, Listing(rest).0, ps[n]);
      } else {
        RefusedStep(seen, ps[n]);
      }
    }
  }
}
