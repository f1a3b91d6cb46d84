/**
 Looking up a name in the merged view: one worker per device asks its own view for
 the name, and the answers, in whatever order they come, build the list of comrades.
 */
module Comrades {
  import opened Bytes
  import opened ConflictName

  const LOCAL: int := 0

  /** mdi->type */
  datatype EntryKind = Unknown | Reg | Dir

  /** What a device answers. */
  datatype Answer = NotFound | Found(isDir: bool)

  datatype Comrade = Comrade(dev: int, isDir: bool)

  /** The part of a merged dentry that the workers share. */
  datatype Info = Info(kind: EntryKind, list: seq<Comrade>, workCount: int)

  predicate HasDev(list: seq<Comrade>, dev: int) {
    exists i :: 0 <= i < |list| && list[i].dev == dev
  }

  /** link_comrade: one comrade per device, the local one in front */
  function Link(list: seq<Comrade>, c: Comrade): seq<Comrade> {
    if HasDev(list, c.dev) then list
    else if c.dev == LOCAL then [c] + list
    else list + [c]
  }

  function KindOf(isDir: bool): EntryKind {
    if isDir then Dir else Reg
  }

  /** is_valid_comrade: whether the answer joins, and the kind afterwards */
  function Judge(kind: EntryKind, list: seq<Comrade>, isDir: bool): (EntryKind, bool) {
    if kind.Unknown? then (KindOf(isDir), true)
    else (kind, (kind.Dir? && isDir) || (kind.Reg? && list == [] && !isDir))
  }

  /** merge_lookup_work_func of device `dev`, from the locks on */
  function Arrive(m: Info, dev: int, a: Answer): Info {
    if a.NotFound? then m.(workCount := m.workCount - 1)
    else
      var (kind, joins) := Judge(m.kind, m.list, a.isDir);
      Info(kind, if joins then Link(m.list, Comrade(dev, a.isDir)) else m.list, m.workCount - 1)
  }

  /** is_merge_lookup_end */
  predicate LookupEnds(m: Info) {
    m.workCount == 0 || m.list != []
  }

  // ----- which devices are asked -----

  function Chosen(kind: EntryKind, owner: int, peers: seq<int>): seq<int> {
    if peers == [] then []
    else
      var rest := Chosen(kind, owner, peers[..|peers| - 1]);
      var dev := peers[|peers| - 1];
      if kind.Reg? && dev != owner then rest else rest + [dev]
  }

  /** The workers that lookup_merge_normal starts: for a mangled file name, only the device it names. */
  function Workers(kind: EntryKind, owner: int, peers: seq<int>): seq<int> {
    (if !kind.Reg? || owner == LOCAL then [LOCAL] else []) + Chosen(kind, owner, peers)
  }

  predicate Distinct(devs: seq<int>) {
    forall i, j :: 0 <= i < j < |devs| ==> devs[i] != devs[j]
  }

  /** Connected peers: device ids are unique, and never the local one. */
  predicate ValidPeers(peers: seq<int>) {
    Distinct(peers) && LOCAL !in peers
  }

  lemma {:induction false} ChosenAre(kind: EntryKind, owner: int, peers: seq<int>)
    requires Distinct(peers)
    ensures Distinct(Chosen(kind, owner, peers))
    ensures forall d :: d in Chosen(kind, owner, peers) <==> d in peers && (kind.Reg? ==> d == owner)
  {
    if peers != [] {
      var n := |peers| - 1;
      ChosenAre(kind, owner, peers[..n]);
      assert peers == peers[..n] + [peers[n]];
      var rest := Chosen(kind, owner, peers[..n]);
      assert forall k :: 0 <= k < |rest| ==> rest[k] in rest;
      assert peers[n] !in peers[..n];
    }
  }

  /** No device is asked twice; a mangled file name asks its device and no other. */
  lemma WorkersAre(kind: EntryKind, owner: int, peers: seq<int>)
    requires ValidPeers(peers)
    ensures Distinct(Workers(kind, owner, peers))
    ensures forall d :: d in Workers(kind, owner, peers) <==> (d == LOCAL || d in peers) && (kind.Reg? ==> d == owner)
  {
    ChosenAre(kind, owner, peers);
  }

  /** hmdfs_get_real_dname: what a lookup takes from the name it is given */
  function RealName(name: string): (EntryKind, int, string) {
    match Classify(name)
    case Plain => (Unknown, -1, name)
    case MangledDir => (Dir, -1, UnmangleDir(name))
    case MangledFile => (Reg, UnmangleFile(name).1, UnmangleFile(name).0)
  }

  lemma FileAsksOne(dev: int, peers: seq<int>)
    requires ValidPeers(peers) && (dev == LOCAL || dev in peers)
    ensures Workers(Reg, dev, peers) == [dev]
  {
    var w := Workers(Reg, dev, peers);
    WorkersAre(Reg, dev, peers);
    assert dev in w;
    assert forall k :: 0 <= k < |w| ==> w[k] in w;
    var first, last := w[0], w[|w| - 1];
    assert first == last == dev;
  }

  lemma RealNameOfMangled(name: string, dev: nat, m: string)
    requires Classify(name) == Plain && NoSlash(name) && dev < TWO_31 && m == MangleFile(name, dev)
    ensures RealName(m) == (Reg, dev, name)
  {
    PlainRoundTrip(name, dev);
    assert Classify(m) == MangledFile;
    assert UnmangleFile(m) == (name, dev);
  }

  /**
   Looking up the name under which a conflicting file is shown asks exactly the device that holds it,
   for the real name.
   */
  lemma ConflictNameAsksItsDevice(name: string, dev: nat, peers: seq<int>)
    requires Classify(name) == Plain && NoSlash(name) && dev < TWO_31
    requires ValidPeers(peers) && (dev == LOCAL || dev in peers)
    ensures RealName(MangleFile(name, dev)) == (Reg, dev, name)
    ensures Workers(Reg, dev, peers) == [dev]
  {
    RealNameOfMangled(name, dev, MangleFile(name, dev));
    FileAsksOne(dev, peers);
  }

  // ----- every order of arrival -----

  /** The state after the workers `order` have finished, in that order. */
  function After(kind: EntryKind, answers: map<int, Answer>, order: seq<int>): Info
    requires forall d :: d in order ==> d in answers
  {
    if order == [] then Info(kind, [], |answers|)
    else
      var n := |order| - 1;
      Arrive(After(kind, answers, order[..n]), order[n], answers[order[n]])
  }

  predicate ValidOrder(answers: map<int, Answer>, order: seq<int>) {
    Distinct(order) && forall d :: d in order ==> d in answers
  }

  predicate Acceptable(kind: EntryKind, a: Answer) {
    a.Found? && (kind.Unknown? || kind == KindOf(a.isDir))
  }

  predicate UniqueDevs(list: seq<Comrade>) {
    forall i, j :: 0 <= i < j < |list| ==> list[i].dev != list[j].dev
  }

  predicate LocalFirst(list: seq<Comrade>) {
    forall i :: 0 < i < |list| ==> list[i].dev != LOCAL
  }

  predicate FromAnswers(answers: map<int, Answer>, order: seq<int>, list: seq<Comrade>) {
    forall i :: 0 <= i < |list| ==>
      list[i].dev in order && list[i].dev in answers && answers[list[i].dev] == Found(list[i].isDir)
  }

  /** The list is of one kind: directories, or a single file; with the kind unknown it is empty. */
  predicate OneKind(m: Info) {
    && (m.kind.Unknown? ==> m.list == [])
    && (m.kind.Reg? ==> |m.list| <= 1)
    && (forall i :: 0 <= i < |m.list| ==> m.kind == KindOf(m.list[i].isDir))
  }

  /** An answer has not been lost: directories are all listed, a file is listed or displaced by another file. */
  predicate Heard(start: EntryKind, m: Info, dev: int, a: Answer) {
    && (m.kind.Dir? && a == Found(true) ==> HasDev(m.list, dev))
    && (Acceptable(start, a) ==> m.list != [])
  }

  predicate Inv(start: EntryKind, answers: map<int, Answer>, order: seq<int>, m: Info) {
    && UniqueDevs(m.list) && LocalFirst(m.list) && OneKind(m) && FromAnswers(answers, order, m.list)
    && m.workCount == |answers| - |order|
    && (if start.Unknown? then m.list == [] ==> m.kind.Unknown? else m.kind == start)
    && (forall d :: d in order && d in answers ==> Heard(start, m, d, answers[d]))
  }

  lemma LinkList(answers: map<int, Answer>, order: seq<int>, list: seq<Comrade>, c: Comrade)
    requires UniqueDevs(list) && LocalFirst(list) && FromAnswers(answers, order, list)
    requires c.dev !in order && c.dev in answers && answers[c.dev] == Found(c.isDir)
    ensures Link(list, c) == if c.dev == LOCAL then [c] + list else list + [c]
    ensures UniqueDevs(Link(list, c)) && LocalFirst(Link(list, c))
            && FromAnswers(answers, order + [c.dev], Link(list, c))
  {
    assert !HasDev(list, c.dev);
    assert forall d :: d in order ==> d in order + [c.dev];
    assert c.dev in order + [c.dev];
  }

  lemma LinkKeepsDevs(list: seq<Comrade>, c: Comrade, dev: int)
    ensures HasDev(Link(list, c), dev) <==> HasDev(list, dev) || dev == c.dev
  {
    var l := Link(list, c);
    if HasDev(list, dev) {
      var i :| 0 <= i < |list| && list[i].dev == dev;
      assert l[i].dev == dev || (i + 1 < |l| && l[i + 1].dev == dev);
    }
    if !HasDev(list, c.dev) {
      assert l[0] == c || l[|list|] == c;
    }
  }

  /** One more answer keeps every clause; in particular no comrade is ever redundant. */
  lemma ArriveInv(start: EntryKind, answers: map<int, Answer>, order: seq<int>, m: Info, dev: int)
    requires Inv(start, answers, order, m) && dev !in order && dev in answers
    ensures Inv(start, answers, order + [dev], Arrive(m, dev, answers[dev]))
  {
    var a := answers[dev];
    var t := Arrive(m, dev, a);
    if a.Found? {
      var c := Comrade(dev, a.isDir);
      LinkList(answers, order, m.list, c);
      forall d | d in order + [dev] && d in answers ensures Heard(start, t, d, answers[d]) {
        LinkKeepsDevs(m.list, c, d);
      }
    }
  }

  lemma {:induction false} AfterInv(start: EntryKind, answers: map<int, Answer>, order: seq<int>)
    requires ValidOrder(answers, order)
    ensures Inv(start, answers, order, After(start, answers, order))
  {
    if order != [] {
      var n := |order| - 1;
      AfterInv(start, answers, order[..n]);
      ArriveInv(start, answers, order[..n], After(start, answers, order[..n]), order[n]);
      assert order == order[..n] + [order[n]];
    }
  }

  predicate Complete(answers: map<int, Answer>, order: seq<int>) {
    ValidOrder(answers, order) && forall d :: d in answers ==> d in order
  }

  /** The devices of the list */
  function Devs(list: seq<Comrade>): set<int> {
    set i | 0 <= i < |list| :: list[i].dev
  }

  /**
   When all workers are done: the lookup succeeds if and only if some device gave an answer
   that fits the name, which no order of arrival can change; a directory has all its
   devices as comrades, a file the one device that was first.
   */
  lemma LookupOutcome(start: EntryKind, answers: map<int, Answer>, order: seq<int>)
    requires Complete(answers, order)
    ensures var m := After(start, answers, order);
            && (m.list != [] <==> exists d :: d in answers && Acceptable(start, answers[d]))
            && (m.kind.Dir? ==> Devs(m.list) == set d | d in answers && answers[d] == Found(true))
            && (m.kind.Reg? && m.list != [] ==>
                  |m.list| == 1 && m.list[0].dev in answers && answers[m.list[0].dev] == Found(false))
  {
    AfterInv(start, answers, order);
    var m := After(start, answers, order);
    if m.list != [] {
      var d := m.list[0].dev;
      assert d in answers && Acceptable(start, answers[d]);
    }
    if m.kind.Dir? {
      forall d ensures d in Devs(m.list) <==> d in answers && answers[d] == Found(true) {
        if d in answers && answers[d] == Found(true) {
          assert Heard(start, m, d, answers[d]);
        }
      }
    }
  }

  lemma {:induction false} DistinctCount(order: seq<int>, all: set<int>)
    requires Distinct(order) && forall d :: d in order ==> d in all
    ensures |order| <= |all|
    ensures |order| == |all| ==> forall d :: d in all ==> d in order
  {
    if order == [] {
      assert |all| == 0 ==> all == {};
    } else {
      var n := |order| - 1;
      var last := order[n];
      assert order == order[..n] + [last];
      assert last !in order[..n];
      DistinctCount(order[..n], all - {last});
    }
  }

  /**
   At any moment of any order: the wait ends only when a comrade is linked or every worker
   is done, and a lookup that finds the list empty then has no fitting answer anywhere.
   */
  lemma WaitEndsRightly(start: EntryKind, answers: map<int, Answer>, order: seq<int>)
    requires ValidOrder(answers, order)
    ensures var m := After(start, answers, order);
            && m.workCount == |answers| - |order| >= 0
            && (LookupEnds(m) && m.list == [] ==>
                  Complete(answers, order) && !exists d :: d in answers && Acceptable(start, answers[d]))
  {
    AfterInv(start, answers, order);
    DistinctCount(order, answers.Keys);
    assert |answers.Keys| == |answers|;
    var m := After(start, answers, order);
    if LookupEnds(m) && m.list == [] {
      assert Complete(answers, order);
      LookupOutcome(start, answers, order);
    }
  }

  /** Two orders of the same answers agree on success. */
  lemma OrderDoesNotDecide(start: EntryKind, answers: map<int, Answer>, one: seq<int>, other: seq<int>)
    requires Complete(answers, one) && Complete(answers, other)
    ensures (After(start, answers, one).list == []) <==> (After(start, answers, other).list == [])
  {
    LookupOutcome(start, answers, one);
    LookupOutcome(start, answers, other);
  }

  // ----- the kind of an entry -----

  predicate Answered(answers: map<int, Answer>, order: seq<int>) {
    forall k :: 0 <= k < |order| ==> order[k] in answers
  }

  function FirstOf(earlier: EntryKind, a: Answer): EntryKind {
    if !earlier.Unknown? || a.NotFound? then earlier else KindOf(a.isDir)
  }

  /** The kind of the first answer that found something */
  function FirstFound(answers: map<int, Answer>, order: seq<int>): EntryKind
    requires Answered(answers, order)
  {
    if order == [] then Unknown
    else
      var n := |order| - 1;
      FirstOf(FirstFound(answers, order[..n]), answers[order[n]])
  }

  /** For a plain name the first device that has it decides whether it is a file or a directory. */
  lemma {:induction false} FirstDecides(answers: map<int, Answer>, order: seq<int>)
    requires (forall d :: d in order ==> d in answers) && Answered(answers, order)
    ensures After(Unknown, answers, order).kind == FirstFound(answers, order)
  {
    if order != [] {
      FirstDecides(answers, order[..|order| - 1]);
    }
  }

  /** All devices that have the name have the same kind of entry. */
  predicate OneKindFound(answers: map<int, Answer>) {
    forall d, e :: d in answers && e in answers && answers[d].Found? && answers[e].Found? ==> answers[d] == answers[e]
  }

  lemma SameAnswers(answers: map<int, Answer>, d: int, e: int)
    requires OneKindFound(answers) && d in answers && e in answers && answers[d].Found? && answers[e].Found?
    ensures answers[d] == answers[e]
  {
  }

  /** If they do, the first answer that found something is like any other. */
  lemma {:induction false} FoundKind(answers: map<int, Answer>, order: seq<int>, k: nat)
    requires Answered(answers, order) && OneKindFound(answers) && k < |order| && answers[order[k]].Found?
    ensures FirstFound(answers, order) == KindOf(answers[order[k]].isDir)
  {
    var n := |order| - 1;
    if i :| 0 <= i < n && answers[order[i]].Found? {
      FoundKind(answers, order[..n], i);
      assert order[..n][i] == order[i];
      SameAnswers(answers, order[i], order[k]);
    } else {
      assert k == n;
      NoneFound(answers, order[..n]);
    }
  }

  lemma {:induction false} NoneFound(answers: map<int, Answer>, order: seq<int>)
    requires Answered(answers, order) && forall k :: 0 <= k < |order| ==> answers[order[k]].NotFound?
    ensures FirstFound(answers, order) == Unknown
  {
    if order != [] {
      NoneFound(answers, order[..|order| - 1]);
    }
  }

  lemma {:induction false} SameStart(answers: map<int, Answer>, order: seq<int>)
    requires Answered(answers, order) && order != [] && answers[order[0]].Found?
    ensures FirstFound(answers, order) == KindOf(answers[order[0]].isDir)
  {
    var n := |order| - 1;
    if n > 0 {
      SameStart(answers, order[..n]);
    } else {
      assert order[..n] == [];
    }
  }

  /** The devices asked, in the order of `asked`, are those that answer. */
  predicate AskedAre(answers: map<int, Answer>, asked: seq<int>) {
    Complete(answers, asked) && Answered(answers, asked)
  }

  /** Any device may be the first to answer. */
  lemma OrderFrom(answers: map<int, Answer>, asked: seq<int>, k: nat) returns (order: seq<int>)
    requires AskedAre(answers, asked) && k < |asked|
    ensures AskedAre(answers, order) && order != [] && order[0] == asked[k]
  {
    order := [asked[k]] + asked[..k] + asked[k + 1..];
    assert asked == asked[..k] + [asked[k]] + asked[k + 1..];
    assert forall d :: d in order <==> d in asked;
  }

  /** Whatever the order of arrival, the entry is of the same kind. */
  ghost predicate KindFixed(answers: map<int, Answer>) {
    forall one: seq<int>, other: seq<int> :: AskedAre(answers, one) && AskedAre(answers, other) ==>
      After(Unknown, answers, one).kind == After(Unknown, answers, other).kind
  }

  lemma KindOfOrder(answers: map<int, Answer>, order: seq<int>, d: int)
    requires AskedAre(answers, order) && OneKindFound(answers) && d in answers && answers[d].Found?
    ensures After(Unknown, answers, order).kind == KindOf(answers[d].isDir)
  {
    FirstDecides(answers, order);
    var k :| 0 <= k < |order| && order[k] == d;
    FoundKind(answers, order, k);
  }

  lemma KindOfNone(answers: map<int, Answer>, order: seq<int>)
    requires AskedAre(answers, order) && forall d :: d in answers ==> answers[d].NotFound?
    ensures After(Unknown, answers, order).kind == Unknown
  {
    FirstDecides(answers, order);
    NoneFound(answers, order);
  }

  lemma KindOfFirst(answers: map<int, Answer>, asked: seq<int>, d: int) returns (order: seq<int>)
    requires AskedAre(answers, asked) && d in answers && answers[d].Found?
    ensures AskedAre(answers, order) && After(Unknown, answers, order).kind == KindOf(answers[d].isDir)
  {
    var k :| 0 <= k < |asked| && asked[k] == d;
    order := OrderFrom(answers, asked, k);
    SameStart(answers, order);
    FirstDecides(answers, order);
  }

  /**
   The order of arrival does not decide the kind of a plain name if and only if all who have it have
   the same kind.
   */
  lemma KindIff(answers: map<int, Answer>, asked: seq<int>)
    requires AskedAre(answers, asked)
    ensures KindFixed(answers) <==> OneKindFound(answers)
  {
    if OneKindFound(answers) {
      forall one: seq<int>, other: seq<int> | AskedAre(answers, one) && AskedAre(answers, other)
        ensures After(Unknown, answers, one).kind == After(Unknown, answers, other).kind
      {
        if d :| d in answers && answers[d].Found? {
          KindOfOrder(answers, one, d);
          KindOfOrder(answers, other, d);
        } else {
          KindOfNone(answers, one);
          KindOfNone(answers, other);
        }
      }
    } else {
      var d, e :| d in answers && e in answers && answers[d].Found? && answers[e].Found? && answers[d] != answers[e];
      var one := KindOfFirst(answers, asked, d);
      var other := KindOfFirst(answers, asked, e);
    }
  }

  // ----- the code -----

  /** A merged dentry, changed in place by the workers under its locks. */
  class MergeInfo {
    var kind: EntryKind
    var list: seq<Comrade>
    var workCount: int

    ghost function Value(): Info
      reads this
    {
      Info(kind, list, workCount)
    }

    constructor ()
      ensures Value() == Info(Unknown, [], 0)
    {
      kind, list, workCount := Unknown, [], 0;
    }

    method LinkComrade(c: Comrade)
      modifies this`list
      ensures list == Link(old(list), c)
    {
      for i := 0 to |list|
        invariant list == old(list) && forall k :: 0 <= k < i ==> list[k].dev != c.dev
      {
        if list[i].dev == c.dev {
          return;
        }
      }
      if c.dev == LOCAL {
        list := [c] + list;
      } else {
        list := list + [c];
      }
    }

    method IsValidComrade(isDir: bool) returns (valid: bool)
      modifies this`kind
      ensures (kind, valid) == Judge(old(kind), list, isDir)
    {
      if kind.Unknown? {
        kind := if isDir then Dir else Reg;
        return true;
      }
      if kind.Dir? && isDir {
        return true;
      }
      if kind.Reg? && list == [] && !isDir {
        return true;
      }
      return false;
    }

    method WorkFunc(dev: int, a: Answer) returns (wake: bool)
      modifies this
      ensures Value() == Arrive(old(Value()), dev, a)
      ensures wake ==> LookupEnds(Value())
      ensures LookupEnds(Value()) && !LookupEnds(old(Value())) ==> wake
    {
      var found := false;
      if a.Found? {
        var valid := IsValidComrade(a.isDir);
        if valid {
          found := true;
          LinkComrade(Comrade(dev, a.isDir));
        }
      }
      workCount := workCount - 1;
      wake := workCount == 0 || found;
    }

    /** The part of lookup_merge_normal under the work lock: the devices asked, one count for each. */
    method StartWorkers(owner: int, peers: seq<int>) returns (asked: seq<int>)
      modifies this`workCount
      ensures asked == Workers(kind, owner, peers)
      ensures workCount == old(workCount) + |asked|
    {
      asked := [];
      if !kind.Reg? || owner == LOCAL {
        asked := [LOCAL];
        workCount := workCount + 1;
      }
      ghost var first := asked;
      for i := 0 to |peers|
        invariant asked == first + Chosen(kind, owner, peers[..i])
        invariant workCount == old(workCount) + |asked|
      {
        assert peers[..i + 1][..i] == peers[..i];
        if !kind.Reg? || peers[i] == owner {
          asked := asked + [peers[i]];
          workCount := workCount + 1;
        }
      }
      assert peers[..|peers|] == peers;
    }
  }
}
