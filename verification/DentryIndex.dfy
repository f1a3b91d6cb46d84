/**
 The directory index as a function of its groups: search, insertion with growth,
 removal, and the proof that the groups behave as a multiset of entries.
 */
module DentryIndex {
  import opened Bytes
  import opened DentryLayout
  import opened DentryGroup

  /**
   `perGroup` is 80 for the plain file and 60 for the cloud file, `hash` the name
   hash for the chosen case mode, `maxGroups` the largest file the backing
   store lets cache_file_truncate produce.
   */
  datatype Config = Config(perGroup: nat, hash: Name -> nat, caseSensitive: bool, maxGroups: nat)

  datatype Loc = Loc(group: nat, slot: nat)

  /** tolower of the kernel's character table */
  function ToLower(c: byte): byte {
    if 65 <= c <= 90 || (192 <= c <= 222 && c != 215) then c + 32 else c
  }

  function Fold(name: Name): (r: Name)
    ensures |r| == |name|
  {
    seq(|name|, i requires 0 <= i < |name| => ToLower(name[i]))
  }

  /** An upper-case letter of ISO 8859-1 */
  predicate IsUpper(c: byte) {
    65 <= c <= 90 || (192 <= c <= 222 && c != 215)
  }

  /** Two bytes that are the same letter up to case */
  predicate SameLetter(a: byte, b: byte) {
    a == b || (IsUpper(a) && b == a + 32) || (IsUpper(b) && a == b + 32)
  }

  /** Names fold alike if and only if they are equal up to the case of letters. */
  lemma FoldIff(a: Name, b: Name)
    ensures Fold(a) == Fold(b) <==> |a| == |b| && forall i :: 0 <= i < |a| ==> SameLetter(a[i], b[i])
  {
    if Fold(a) == Fold(b) {
      assert |a| == |Fold(a)| == |Fold(b)| == |b|;
      forall i | 0 <= i < |a| ensures SameLetter(a[i], b[i]) {
        assert Fold(a)[i] == Fold(b)[i];
      }
    }
  }

  ghost predicate ValidConfig(cfg: Config) {
    && cfg.maxGroups < TWO_32
    && (!cfg.caseSensitive ==> forall a, b :: Fold(a) == Fold(b) ==> cfg.hash(a) == cfg.hash(b))
  }

  /** Equality of names as the index sees it. */
  predicate Matches(cfg: Config, a: Name, b: Name) {
    a == b || (!cfg.caseSensitive && Fold(a) == Fold(b))
  }

  // ----- search -----

  /** The test of find_in_block on the record at slot `i`. */
  predicate HitAt(g: Group, i: int, hash: nat, name: Name, fold: bool) {
    && IsHead(g, i)
    && g.nsl[i].hash == hash
    && g.nsl[i].namelen == |name|
    && var stored := NameBytes(g, i, |name|);
       if fold then Fold(stored) == Fold(name) else stored == name
  }

  function FirstHit(g: Group, hash: nat, name: Name, fold: bool, j: nat): Option<nat>
    decreases |g.bitmap| - j
  {
    if j >= |g.bitmap| then None
    else if HitAt(g, j, hash, name, fold) then Some(j)
    else FirstHit(g, hash, name, fold, j + 1)
  }

  lemma {:induction false} FirstHitFirst(g: Group, hash: nat, name: Name, fold: bool, j: nat)
    ensures var r := FirstHit(g, hash, name, fold, j);
            && (r.Some? ==> HitAt(g, r.value, hash, name, fold))
            && forall i :: j <= i && (r.Some? ==> i < r.value) ==> !HitAt(g, i, hash, name, fold)
    decreases |g.bitmap| - j
  {
    if j < |g.bitmap| && !HitAt(g, j, hash, name, fold) {
      FirstHitFirst(g, hash, name, fold, j + 1);
    }
  }

  lemma {:induction false} FirstHitSkip(g: Group, hash: nat, name: Name, fold: bool, j: nat, k: nat)
    requires j <= k && forall i :: j <= i < k ==> !HitAt(g, i, hash, name, fold)
    ensures FirstHit(g, hash, name, fold, j) == FirstHit(g, hash, name, fold, k)
    decreases k - j
  {
    if j < k && j < |g.bitmap| {
      FirstHitSkip(g, hash, name, fold, j + 1, k);
    }
  }

  /** The first group of the bucket that `hash` selects at `level`. */
  function BucketGroup(level: nat, hash: nat): nat
    requires level < MAX_BUCKET_LEVEL
  {
    BUCKET_BLOCKS * BucketAddr(level, hash % BucketsByLevel(level))
  }

  /** The groups a search visits, in order, over the first `depth` levels. */
  function Path(hash: nat, depth: nat): seq<nat>
    requires depth <= MAX_BUCKET_LEVEL
  {
    if depth == 0 then []
    else Path(hash, depth - 1) + [BucketGroup(depth - 1, hash), BucketGroup(depth - 1, hash) + 1]
  }

  predicate OnGroups(groups: seq<Group>, path: seq<nat>) {
    forall k :: 0 <= k < |path| ==> path[k] < |groups|
  }

  function SearchHit(groups: seq<Group>, path: seq<nat>, hash: nat, name: Name, fold: bool): Option<Loc>
    requires OnGroups(groups, path)
  {
    if path == [] then None
    else
      var hit := FirstHit(groups[path[0]], hash, name, fold, 0);
      if hit.Some? then Some(Loc(path[0], hit.value))
      else SearchHit(groups, path[1..], hash, name, fold)
  }

  /** A search finds a hit exactly when some group on its path holds one. */
  lemma {:induction false} SearchFinds(groups: seq<Group>, path: seq<nat>, hash: nat, name: Name, fold: bool)
    requires OnGroups(groups, path)
    ensures var r := SearchHit(groups, path, hash, name, fold);
            && (r.Some? ==> r.value.group in path && HitAt(groups[r.value.group], r.value.slot, hash, name, fold))
            && (r.None? ==> forall b, i {:trigger HitAt(groups[b], i, hash, name, fold)} ::
                  b in path && 0 <= i ==> !HitAt(groups[b], i, hash, name, fold))
  {
    if path != [] {
      FirstHitFirst(groups[path[0]], hash, name, fold, 0);
      SearchFinds(groups, path[1..], hash, name, fold);
    }
  }

  lemma {:induction false} SearchAppend(groups: seq<Group>, p: seq<nat>, q: seq<nat>, hash: nat, name: Name, fold: bool)
    requires OnGroups(groups, p) && OnGroups(groups, q)
    ensures OnGroups(groups, p + q)
    ensures SearchHit(groups, p + q, hash, name, fold) ==
            var s := SearchHit(groups, p, hash, name, fold);
            if s.Some? then s else SearchHit(groups, q, hash, name, fold)
  {
    if p == [] {
      assert p + q == q;
    } else {
      assert (p + q)[1..] == p[1..] + q;
      SearchAppend(groups, p[1..], q, hash, name, fold);
    }
  }

  /** hmdfs_find_dentry: an exact hit anywhere, else the first case-folded one. */
  ghost function Find(cfg: Config, groups: seq<Group>, name: Name): Option<Loc>
    requires IndexInv(cfg, groups)
  {
    var hash := cfg.hash(name);
    PathInside(cfg, groups, hash);
    var path := Path(hash, MaxDepth(|groups|));
    var exact := SearchHit(groups, path, hash, name, false);
    if exact.Some? || cfg.caseSensitive then exact
    else SearchHit(groups, path, hash, name, true)
  }

  // ----- the invariant -----

  /** Group `b` lies in the bucket that `hash` selects at its level. */
  predicate Placed(b: nat, hash: nat) {
    hash % Pow2(BucketLevel(b / BUCKET_BLOCKS)) == BucketOffset(b / BUCKET_BLOCKS)
  }

  ghost predicate GroupInv(cfg: Config, b: nat, g: Group) {
    && WellFormed(g)
    && |g.bitmap| == cfg.perGroup
    && forall i :: IsHead(g, i) ==> g.nsl[i].hash == cfg.hash(EntryAt(g, i).name) && Placed(b, g.nsl[i].hash)
  }

  /** The file holds whole levels and every name sits, intact, where a search for it looks. */
  ghost predicate IndexInv(cfg: Config, groups: seq<Group>) {
    && ValidConfig(cfg)
    && |groups| == LevelGroups(MaxDepth(|groups|))
    && |groups| <= cfg.maxGroups
    && AllGroups(cfg, groups, |groups|)
  }

  ghost predicate AllGroups(cfg: Config, groups: seq<Group>, n: nat)
    requires n <= |groups|
  {
    n == 0 || (GroupInv(cfg, n - 1, groups[n - 1]) && AllGroups(cfg, groups, n - 1))
  }

  lemma {:induction false} AllGroupsAt(cfg: Config, groups: seq<Group>, n: nat, b: nat)
    requires b < n <= |groups| && AllGroups(cfg, groups, n)
    ensures GroupInv(cfg, b, groups[b])
  {
    if b < n - 1 {
      AllGroupsAt(cfg, groups, n - 1, b);
    }
  }

  /** The invariant survives replacing one group by one that satisfies it. */
  lemma {:induction false} AllGroupsUpdate(cfg: Config, groups: seq<Group>, n: nat, b: nat, g: Group)
    requires n <= |groups| && b < |groups| && AllGroups(cfg, groups, n) && GroupInv(cfg, b, g)
    ensures AllGroups(cfg, groups[b := g], n)
  {
    if n > 0 {
      AllGroupsUpdate(cfg, groups, n - 1, b, g);
    }
  }

  /** The invariant survives appending empty groups. */
  lemma {:induction false} AllGroupsExtend(cfg: Config, groups: seq<Group>, more: seq<Group>, n: nat)
    requires n <= |groups| + |more| && AllGroups(cfg, groups, if n <= |groups| then n else |groups|)
    requires forall k :: 0 <= k < |more| ==> more[k] == ZeroGroup(cfg.perGroup)
    ensures AllGroups(cfg, groups + more, n)
  {
    if n > 0 {
      AllGroupsExtend(cfg, groups, more, n - 1);
    }
  }

  lemma DepthBound(depth: nat)
    requires LevelGroups(depth) < TWO_32
    ensures depth <= 31
  {
    Pow2Of31();
    if depth > 31 {
      Pow2Monotone(32, depth);
    }
  }

  lemma BucketGroupInside(level: nat, hash: nat, depth: nat)
    requires level < MAX_BUCKET_LEVEL
    ensures BucketGroup(level, hash) + BUCKET_BLOCKS <= LevelGroups(depth) <==> level < depth
    ensures Placed(BucketGroup(level, hash), hash) && Placed(BucketGroup(level, hash) + 1, hash)
    ensures BucketLevel(BucketGroup(level, hash) / BUCKET_BLOCKS) == level
    ensures LevelGroups(level) <= BucketGroup(level, hash)
  {
    BucketAddrInverse(level, hash % Pow2(level));
    LevelPresent(level, hash % Pow2(level), depth);
  }

  lemma BucketPresent(level: nat, hash: nat, depth: nat)
    requires level < depth <= MAX_BUCKET_LEVEL
    ensures BucketGroup(level, hash) + BUCKET_BLOCKS <= LevelGroups(depth)
  {
    BucketGroupInside(level, hash, depth);
  }

  /** The two groups of the selected bucket are the only placed ones at their level. */
  lemma BucketGroupUnique(level: nat, hash: nat, b: nat)
    requires level < MAX_BUCKET_LEVEL && LevelGroups(level) <= b < LevelGroups(level + 1) && Placed(b, hash)
    ensures b == BucketGroup(level, hash) || b == BucketGroup(level, hash) + 1
  {
    var bucket := b / BUCKET_BLOCKS;
    FlsUnique(bucket + 1, level);
    assert bucket == BucketAddr(level, hash % Pow2(level));
  }

  lemma LastLevelMember(hash: nat, depth: nat, b: nat, low: nat)
    requires 0 < depth <= MAX_BUCKET_LEVEL && low == BucketGroup(depth - 1, hash)
    ensures b == low || b == low + 1 <==> LevelGroups(depth - 1) <= b < LevelGroups(depth) && Placed(b, hash)
    ensures LevelGroups(depth - 1) <= LevelGroups(depth)
  {
    Pow2Monotone(depth - 1, depth);
    BucketGroupInside(depth - 1, hash, depth);
    if LevelGroups(depth - 1) <= b < LevelGroups(depth) && Placed(b, hash) {
      BucketGroupUnique(depth - 1, hash, b);
    }
  }

  lemma {:induction false} PathMember(hash: nat, depth: nat, b: nat)
    requires depth <= MAX_BUCKET_LEVEL
    ensures b in Path(hash, depth) <==> b < LevelGroups(depth) && Placed(b, hash)
  {
    if depth > 0 {
      PathMember(hash, depth - 1, b);
      LastLevelMember(hash, depth, b, BucketGroup(depth - 1, hash));
    }
  }

  lemma PathInside(cfg: Config, groups: seq<Group>, hash: nat)
    requires IndexInv(cfg, groups)
    ensures MaxDepth(|groups|) <= 31
    ensures OnGroups(groups, Path(hash, MaxDepth(|groups|)))
  {
    var depth := MaxDepth(|groups|);
    DepthBound(depth);
    var path := Path(hash, depth);
    forall k | 0 <= k < |path| ensures path[k] < |groups| {
      assert path[k] in path;
      PathMember(hash, depth, path[k]);
    }
  }

  // ----- the abstraction -----

  /** The listing from group `b` on, in (group, slot) order. */
  function Listing(groups: seq<Group>, b: nat): seq<Entry>
    decreases |groups| - b
  {
    if b >= |groups| then [] else Scan(groups[b], 0) + Listing(groups, b + 1)
  }

  /** The directory the file stands for. */
  function Entries(groups: seq<Group>): multiset<Entry>
  {
    multiset(Listing(groups, 0))
  }

  predicate LiveEntry(groups: seq<Group>, b: int, i: int, e: Entry)
  {
    0 <= b < |groups| && IsHead(groups[b], i) && EntryAt(groups[b], i) == e
  }

  lemma {:induction false} ListingMember(groups: seq<Group>, b: nat, e: Entry)
    ensures e in Listing(groups, b) <==> exists c, i :: b <= c && LiveEntry(groups, c, i, e)
    decreases |groups| - b
  {
    if b < |groups| {
      ListingMember(groups, b + 1, e);
      ScanMember(groups[b], 0, e);
      if e in Scan(groups[b], 0) {
        var i :| i >= 0 && IsHead(groups[b], i) && EntryAt(groups[b], i) == e;
        assert LiveEntry(groups, b, i, e);
      }
    }
  }

  /** The listing splits around the entries of group `b`. */
  lemma {:induction false} ListingSplit(groups: seq<Group>, b: nat, from: nat)
    requires from <= b < |groups|
    ensures Listing(groups, from) == ListingBetween(groups, from, b) + Scan(groups[b], 0) + Listing(groups, b + 1)
    decreases b - from
  {
    if from < b {
      ListingSplit(groups, b, from + 1);
    }
  }

  function ListingBetween(groups: seq<Group>, from: nat, upto: nat): seq<Entry>
    requires from <= upto <= |groups|
    decreases upto - from
  {
    if from == upto then [] else Scan(groups[from], 0) + ListingBetween(groups, from + 1, upto)
  }

  lemma {:induction false} ListingFrame(groups: seq<Group>, b: nat, g: Group, from: nat)
    requires b < |groups|
    ensures from <= b ==> ListingBetween(groups[b := g], from, b) == ListingBetween(groups, from, b)
    ensures b < from ==> Listing(groups[b := g], from) == Listing(groups, from)
    decreases |groups| - from
  {
    if from < |groups| {
      ListingFrame(groups, b, g, from + 1);
    }
  }

  lemma Exchange<T>(a: seq<T>, s: seq<T>, t: seq<T>, c: seq<T>, more: multiset<T>, less: multiset<T>)
    requires multiset(t) + less == multiset(s) + more
    ensures multiset(a + t + c) + less == multiset(a + s + c) + more
  {
    var outer := multiset(a) + multiset(c);
    assert multiset(a + t + c) + less == outer + (multiset(t) + less);
    assert multiset(a + s + c) + more == outer + (multiset(s) + more);
  }

  /** Replacing one group changes the listing by that group's entries only. */
  lemma ListingUpdate(groups: seq<Group>, b: nat, g: Group, more: multiset<Entry>, less: multiset<Entry>)
    requires b < |groups|
    requires multiset(Scan(g, 0)) + less == multiset(Scan(groups[b], 0)) + more
    ensures Entries(groups[b := g]) + less == Entries(groups) + more
  {
    ListingFrame(groups, b, g, 0);
    ListingFrame(groups, b, g, b + 1);
    ListingSplit(groups, b, 0);
    ListingSplit(groups[b := g], b, 0);
    Exchange(ListingBetween(groups, 0, b), Scan(groups[b], 0), Scan(g, 0), Listing(groups, b + 1), more, less);
  }

  lemma {:induction false} ListingExtended(groups: seq<Group>, more: seq<Group>, from: nat)
    requires forall k :: 0 <= k < |more| ==> Scan(more[k], 0) == []
    ensures Listing(groups + more, from) == Listing(groups, from)
    decreases |groups| + |more| - from
  {
    if from < |groups| + |more| {
      ListingExtended(groups, more, from + 1);
    }
  }

  // ----- lookup -----

  lemma HitIsMatch(cfg: Config, groups: seq<Group>, b: nat, i: nat, name: Name, fold: bool)
    requires IndexInv(cfg, groups) && b < |groups| && (fold ==> !cfg.caseSensitive)
    ensures HitAt(groups[b], i, cfg.hash(name), name, fold) <==>
            IsHead(groups[b], i) &&
            var stored := EntryAt(groups[b], i).name;
            if fold then Fold(stored) == Fold(name) else stored == name
  {
    AllGroupsAt(cfg, groups, |groups|, b);
  }

  /** Every entry that matches `name` is on the search path of `name`. */
  lemma MatchOnPath(cfg: Config, groups: seq<Group>, b: nat, i: nat, name: Name)
    requires IndexInv(cfg, groups) && b < |groups| && IsHead(groups[b], i)
    requires Matches(cfg, EntryAt(groups[b], i).name, name)
    ensures MaxDepth(|groups|) <= 31 && b in Path(cfg.hash(name), MaxDepth(|groups|))
  {
    PathInside(cfg, groups, cfg.hash(name));
    AllGroupsAt(cfg, groups, |groups|, b);
    PathMember(cfg.hash(name), MaxDepth(|groups|), b);
  }

  /**
   Lookup succeeds exactly when a matching entry is stored; what it returns
   matches, and is an exact match whenever one is stored at any level.
   */
  lemma FindCorrect(cfg: Config, groups: seq<Group>, name: Name)
    requires IndexInv(cfg, groups)
    ensures var r := Find(cfg, groups, name);
            && (r.Some? <==> exists e :: e in Entries(groups) && Matches(cfg, e.name, name))
            && (r.Some? ==>
                  && r.value.group < |groups| && IsHead(groups[r.value.group], r.value.slot)
                  && var e := EntryAt(groups[r.value.group], r.value.slot);
                     && e in Entries(groups) && Matches(cfg, e.name, name)
                     && (e.name == name || forall f :: f in Entries(groups) ==> f.name != name))
  {
    var hash := cfg.hash(name);
    var r := Find(cfg, groups, name);
    PathInside(cfg, groups, hash);
    SearchFinds(groups, Path(hash, MaxDepth(|groups|)), hash, name, false);
    SearchFinds(groups, Path(hash, MaxDepth(|groups|)), hash, name, true);
    forall e | e in Entries(groups) && Matches(cfg, e.name, name) && (r.None? || e.name == name)
      ensures r.Some? && r.value.group < |groups| && HitAt(groups[r.value.group], r.value.slot, hash, name, false)
    {
      ListingMember(groups, 0, e);
      var b, i :| 0 <= b && LiveEntry(groups, b, i, e);
      MatchOnPath(cfg, groups, b, i, name);
      HitIsMatch(cfg, groups, b, i, name, false);
      if !cfg.caseSensitive {
        HitIsMatch(cfg, groups, b, i, name, true);
      }
    }
    if r.Some? {
      PathMember(hash, MaxDepth(|groups|), r.value.group);
      var fold := !HitAt(groups[r.value.group], r.value.slot, hash, name, false);
      HitIsMatch(cfg, groups, r.value.group, r.value.slot, name, fold);
      var e := EntryAt(groups[r.value.group], r.value.slot);
      ListingMember(groups, 0, e);
      assert LiveEntry(groups, r.value.group, r.value.slot, e);
    }
  }

  // ----- deletion -----

  ghost function Delete(cfg: Config, groups: seq<Group>, name: Name): seq<Group>
    requires IndexInv(cfg, groups)
  {
    var r := Find(cfg, groups, name);
    if r.None? then groups
    else
      FindCorrect(cfg, groups, name);
      AllGroupsAt(cfg, groups, |groups|, r.value.group);
      groups[r.value.group := Removed(groups[r.value.group], r.value.slot)]
  }

  lemma RemovedGroupInv(cfg: Config, b: nat, g: Group, p: nat)
    requires GroupInv(cfg, b, g) && IsHead(g, p)
    ensures GroupInv(cfg, b, Removed(g, p))
  {
    var r := Removed(g, p);
    RemovedWellFormed(g, p);
    RemovedOneLess(g, p);
  }

  /** Removing one live record keeps the invariant and takes exactly its entry away. */
  lemma RemoveCorrect(cfg: Config, groups: seq<Group>, b: nat, p: nat)
    requires IndexInv(cfg, groups) && b < |groups| && IsHead(groups[b], p)
    ensures Shape(groups[b])
    ensures var after := groups[b := Removed(groups[b], p)];
            && IndexInv(cfg, after)
            && Entries(groups) == Entries(after) + multiset{EntryAt(groups[b], p)}
  {
    AllGroupsAt(cfg, groups, |groups|, b);
    RemovedGroupInv(cfg, b, groups[b], p);
    AllGroupsUpdate(cfg, groups, |groups|, b, Removed(groups[b], p));
    RemovedOneLess(groups[b], p);
    OneMoreScan(Removed(groups[b], p), groups[b], p, EntryAt(groups[b], p), 0);
    ListingUpdate(groups, b, Removed(groups[b], p), multiset{}, multiset{EntryAt(groups[b], p)});
  }

  /** Deletion removes exactly the entry that lookup reports, or nothing. */
  lemma DeleteCorrect(cfg: Config, groups: seq<Group>, name: Name)
    requires IndexInv(cfg, groups)
    ensures var after := Delete(cfg, groups, name);
            && IndexInv(cfg, after) && |after| == |groups|
            && var r := Find(cfg, groups, name);
               && (r.None? ==> Entries(after) == Entries(groups))
               && (r.Some? ==>
                     && r.value.group < |groups| && IsHead(groups[r.value.group], r.value.slot)
                     && Entries(groups) == Entries(after) + multiset{EntryAt(groups[r.value.group], r.value.slot)})
  {
    var r := Find(cfg, groups, name);
    FindCorrect(cfg, groups, name);
    if r.Some? {
      RemoveCorrect(cfg, groups, r.value.group, r.value.slot);
    }
  }

  // ----- insertion -----

  datatype Created = Stored(groups: seq<Group>) | NoSpace(groups: seq<Group>)

  /** cache_file_truncate to the size that holds the levels 0..level. */
  function Truncated(cfg: Config, groups: seq<Group>, level: nat): seq<Group> {
    var target := LevelGroups(level + 1);
    if target < |groups| then groups[..target]
    else groups + seq(target - |groups|, _ => ZeroGroup(cfg.perGroup))
  }

  /** The slot room_for_filename picks in `g`. */
  function Room(g: Group, name: Name): nat
    requires |name| > 0
  {
    FirstFit(g.bitmap, Slots(|name|), 0)
  }

  /** The file after the name was written at the free slots of group `b`. */
  function Filled(cfg: Config, groups: seq<Group>, b: nat, name: Name, attr: Attr): seq<Group>
    requires |name| > 0 && b < |groups| && Shape(groups[b]) && Room(groups[b], name) < |groups[b].bitmap|
  {
    groups[b := Inserted(groups[b], Room(groups[b], name), name, cfg.hash(name), attr)]
  }

  lemma InsertedGroupInv(cfg: Config, b: nat, g: Group, p: nat, name: Name, attr: Attr)
    requires GroupInv(cfg, b, g) && Fits(g, p, name) && FreeRun(g.bitmap, p, Slots(|name|))
    requires Placed(b, cfg.hash(name))
    ensures GroupInv(cfg, b, Inserted(g, p, name, cfg.hash(name), attr))
  {
    var r := Inserted(g, p, name, cfg.hash(name), attr);
    InsertedWellFormed(g, p, name, cfg.hash(name), attr);
    forall i | IsHead(r, i) ensures r.nsl[i].hash == cfg.hash(EntryAt(r, i).name) && Placed(b, r.nsl[i].hash) {
      InsertedHeads(g, p, name, cfg.hash(name), attr);
      InsertedEntry(g, p, name, cfg.hash(name), attr, i);
    }
  }

  /** Adding one record in free slots keeps the invariant and adds exactly its entry. */
  lemma InsertCorrect(cfg: Config, groups: seq<Group>, b: nat, name: Name, attr: Attr)
    requires IndexInv(cfg, groups) && b < |groups| && |name| > 0
    requires Placed(b, cfg.hash(name)) && Room(groups[b], name) < cfg.perGroup
    ensures Shape(groups[b]) && |groups[b].bitmap| == cfg.perGroup
    ensures var after := Filled(cfg, groups, b, name, attr);
            && IndexInv(cfg, after)
            && Entries(after) == Entries(groups) + multiset{Entry(name, attr)}
  {
    var g, p, hash := groups[b], Room(groups[b], name), cfg.hash(name);
    FirstFitLowest(g.bitmap, Slots(|name|), 0);
    AllGroupsAt(cfg, groups, |groups|, b);
    InsertedGroupInv(cfg, b, g, p, name, attr);
    AllGroupsUpdate(cfg, groups, |groups|, b, Inserted(g, p, name, hash, attr));
    InsertedOneMore(g, p, name, hash, attr);
    OneMoreScan(g, Inserted(g, p, name, hash, attr), p, Entry(name, attr), 0);
    ListingUpdate(groups, b, Inserted(g, p, name, hash, attr), multiset{Entry(name, attr)}, multiset{});
  }

  /** Growing by one whole level keeps the invariant and the directory. */
  lemma GrowCorrect(cfg: Config, groups: seq<Group>, depth: nat)
    requires IndexInv(cfg, groups) && depth == MaxDepth(|groups|) && LevelGroups(depth + 1) <= cfg.maxGroups
    ensures var grown := Truncated(cfg, groups, depth);
            && IndexInv(cfg, grown) && Entries(grown) == Entries(groups)
            && groups <= grown && |grown| == LevelGroups(depth + 1) && MaxDepth(|grown|) == depth + 1
            && forall b :: |groups| <= b < |grown| ==> grown[b] == ZeroGroup(cfg.perGroup)
  {
    Pow2Monotone(depth, depth + 1);
    MaxDepthOfWholeLevels(depth + 1);
    var more := seq(LevelGroups(depth + 1) - |groups|, _ => ZeroGroup(cfg.perGroup));
    var grown := Truncated(cfg, groups, depth);
    assert grown == groups + more;
    ListingExtended(groups, more, 0);
    AllGroupsExtend(cfg, groups, more, |grown|);
  }

  /**
   A name that fits an empty group finds room in a level that was just added, so
   one insertion adds at most one level.
   */
  lemma ZeroGroupHasRoom(n: nat, name: Name)
    requires 0 < |name| && Slots(|name|) <= n
    ensures Room(ZeroGroup(n), name) == 0
  {
    FirstFitUnique(ZeroGroup(n).bitmap, Slots(|name|), 0, 0);
  }

  /** The first group on the path, from `level` on, that has room for the name. */
  function FirstRoom(cfg: Config, groups: seq<Group>, name: Name, level: nat, depth: nat): (r: Option<nat>)
    requires |name| > 0 && depth <= MAX_BUCKET_LEVEL
    ensures r.Some? ==> r.value < |groups| && Room(groups[r.value], name) < cfg.perGroup
    decreases depth - level
  {
    if level >= depth then None
    else
      var b := BucketGroup(level, cfg.hash(name));
      if b < |groups| && Room(groups[b], name) < cfg.perGroup then Some(b)
      else if b + 1 < |groups| && Room(groups[b + 1], name) < cfg.perGroup then Some(b + 1)
      else FirstRoom(cfg, groups, name, level + 1, depth)
  }

  lemma {:induction false} FirstRoomPlaced(cfg: Config, groups: seq<Group>, name: Name, level: nat, depth: nat)
    requires |name| > 0 && depth <= MAX_BUCKET_LEVEL
    ensures var r := FirstRoom(cfg, groups, name, level, depth);
            r.Some? ==> Placed(r.value, cfg.hash(name))
    decreases depth - level
  {
    if level < depth {
      BucketGroupInside(level, cfg.hash(name), depth);
      FirstRoomPlaced(cfg, groups, name, level + 1, depth);
    }
  }

  /**
   The chosen group is the first with room: all buckets of lower levels are full, and so is the group
   before it in its own.
   */
  lemma {:induction false} FirstRoomEarliest(cfg: Config, groups: seq<Group>, name: Name, level: nat, depth: nat)
    returns (at: nat)
    requires |name| > 0 && depth <= MAX_BUCKET_LEVEL && LevelGroups(depth) == |groups|
    requires FirstRoom(cfg, groups, name, level, depth).Some?
    ensures level <= at < depth && forall l :: level <= l < at ==> BucketFull(cfg, groups, name, l)
    ensures var b, first := FirstRoom(cfg, groups, name, level, depth).value, BucketGroup(at, cfg.hash(name));
            && (b == first || b == first + 1) && first < |groups|
            && (b == first + 1 ==> Room(groups[first], name) >= cfg.perGroup)
    decreases depth - level
  {
    BucketPresent(level, cfg.hash(name), depth);
    var first := BucketGroup(level, cfg.hash(name));
    if Room(groups[first], name) < cfg.perGroup || Room(groups[first + 1], name) < cfg.perGroup {
      at := level;
    } else {
      at := FirstRoomEarliest(cfg, groups, name, level + 1, depth);
    }
  }

  /** Neither group of the bucket selected at `level` has room for the name. */
  predicate BucketFull(cfg: Config, groups: seq<Group>, name: Name, level: nat)
    requires |name| > 0
  {
    level < MAX_BUCKET_LEVEL &&
    var b := BucketGroup(level, cfg.hash(name));
    b + 1 < |groups| && Room(groups[b], name) >= cfg.perGroup && Room(groups[b + 1], name) >= cfg.perGroup
  }

  /** No group is chosen exactly when every bucket on the path is full. */
  lemma {:induction false} FirstRoomComplete(cfg: Config, groups: seq<Group>, name: Name, level: nat, depth: nat)
    requires |name| > 0 && depth <= MAX_BUCKET_LEVEL && LevelGroups(depth) == |groups|
    ensures FirstRoom(cfg, groups, name, level, depth).None? <==>
            forall l :: level <= l < depth ==> BucketFull(cfg, groups, name, l)
    decreases depth - level
  {
    if level < depth {
      BucketPresent(level, cfg.hash(name), depth);
      FirstRoomComplete(cfg, groups, name, level + 1, depth);
      assert FirstRoom(cfg, groups, name, level, depth).None? <==>
             BucketFull(cfg, groups, name, level) && FirstRoom(cfg, groups, name, level + 1, depth).None?;
    }
  }

  ghost predicate Shaped(cfg: Config, groups: seq<Group>) {
    forall b :: 0 <= b < |groups| ==> Shape(groups[b]) && |groups[b].bitmap| == cfg.perGroup
  }

  lemma GroupShapes(cfg: Config, groups: seq<Group>)
    requires IndexInv(cfg, groups)
    ensures Shaped(cfg, groups)
  {
    forall b | 0 <= b < |groups| ensures Shape(groups[b]) && |groups[b].bitmap| == cfg.perGroup {
      AllGroupsAt(cfg, groups, |groups|, b);
    }
  }

  /** create_dentry: the first group of the path with room takes the name, else a new level does. */
  ghost function Create(cfg: Config, groups: seq<Group>, name: Name, attr: Attr): Created
    requires IndexInv(cfg, groups)
    requires 0 < |name| && Slots(|name|) <= cfg.perGroup
  {
    GroupShapes(cfg, groups);
    var depth := MaxDepth(|groups|);
    DepthBound(depth);
    var c := FirstRoom(cfg, groups, name, 0, depth);
    if c.Some? then Stored(Filled(cfg, groups, c.value, name, attr))
    else if LevelGroups(depth + 1) > cfg.maxGroups then NoSpace(groups)
    else
      NewLevelHasRoom(cfg, groups, name, depth);
      GroupShapes(cfg, Truncated(cfg, groups, depth));
      Stored(Filled(cfg, Truncated(cfg, groups, depth), BucketGroup(depth, cfg.hash(name)), name, attr))
  }

  /**
   Insertion adds exactly one entry, or reports no space and changes nothing; it
   adds a level only when every bucket on the path is full, never more than one,
   and fails exactly when, besides, the store refuses that level.
   */
  lemma CreateCorrect(cfg: Config, groups: seq<Group>, name: Name, attr: Attr)
    requires IndexInv(cfg, groups)
    requires 0 < |name| && Slots(|name|) <= cfg.perGroup
    ensures var r := Create(cfg, groups, name, attr);
            var depth := MaxDepth(|groups|);
            var full := forall l :: 0 <= l < depth ==> BucketFull(cfg, groups, name, l);
            && IndexInv(cfg, r.groups)
            && (r.NoSpace? <==> full && LevelGroups(depth + 1) > cfg.maxGroups)
            && (r.NoSpace? ==> r.groups == groups)
            && (r.Stored? ==> Entries(r.groups) == Entries(groups) + multiset{Entry(name, attr)})
            && MaxDepth(|r.groups|) == (if full && r.Stored? then depth + 1 else depth)
  {
    var depth := MaxDepth(|groups|);
    DepthBound(depth);
    FirstRoomComplete(cfg, groups, name, 0, depth);
    if FirstRoom(cfg, groups, name, 0, depth).Some? {
      CreateInPlace(cfg, groups, name, attr, depth);
    } else if LevelGroups(depth + 1) <= cfg.maxGroups {
      CreateInNewLevel(cfg, groups, name, attr, depth);
    }
  }

  lemma CreateInPlace(cfg: Config, groups: seq<Group>, name: Name, attr: Attr, depth: nat)
    requires IndexInv(cfg, groups) && depth == MaxDepth(|groups|) < MAX_BUCKET_LEVEL
    requires 0 < |name| && Slots(|name|) <= cfg.perGroup && FirstRoom(cfg, groups, name, 0, depth).Some?
    ensures var r := Create(cfg, groups, name, attr);
            && r.Stored? && IndexInv(cfg, r.groups) && |r.groups| == |groups|
            && Entries(r.groups) == Entries(groups) + multiset{Entry(name, attr)}
  {
    FirstRoomPlaced(cfg, groups, name, 0, depth);
    var b := FirstRoom(cfg, groups, name, 0, depth).value;
    InsertCorrect(cfg, groups, b, name, attr);
    assert Create(cfg, groups, name, attr) == Stored(Filled(cfg, groups, b, name, attr));
  }

  lemma CreateInNewLevel(cfg: Config, groups: seq<Group>, name: Name, attr: Attr, depth: nat)
    requires IndexInv(cfg, groups) && depth == MaxDepth(|groups|) < MAX_BUCKET_LEVEL
    requires 0 < |name| && Slots(|name|) <= cfg.perGroup && FirstRoom(cfg, groups, name, 0, depth).None?
    requires LevelGroups(depth + 1) <= cfg.maxGroups
    ensures var r := Create(cfg, groups, name, attr);
            && r.Stored? && IndexInv(cfg, r.groups) && MaxDepth(|r.groups|) == depth + 1
            && Entries(r.groups) == Entries(groups) + multiset{Entry(name, attr)}
  {
    NewLevelHasRoom(cfg, groups, name, depth);
    var grown, b := Truncated(cfg, groups, depth), BucketGroup(depth, cfg.hash(name));
    InsertCorrect(cfg, grown, b, name, attr);
    assert Create(cfg, groups, name, attr) == Stored(Filled(cfg, grown, b, name, attr));
  }

  lemma NewLevelHasRoom(cfg: Config, groups: seq<Group>, name: Name, depth: nat)
    requires IndexInv(cfg, groups) && depth == MaxDepth(|groups|) < MAX_BUCKET_LEVEL
    requires LevelGroups(depth + 1) <= cfg.maxGroups
    requires 0 < |name| && Slots(|name|) <= cfg.perGroup
    ensures var grown := Truncated(cfg, groups, depth);
            var b := BucketGroup(depth, cfg.hash(name));
            && IndexInv(cfg, grown) && Entries(grown) == Entries(groups)
            && |grown| == LevelGroups(depth + 1) && MaxDepth(|grown|) == depth + 1
            && |groups| <= b && b + BUCKET_BLOCKS <= |grown| && Placed(b, cfg.hash(name))
            && Room(grown[b], name) == 0
  {
    GrowCorrect(cfg, groups, depth);
    BucketGroupInside(depth, cfg.hash(name), depth + 1);
    ZeroGroupHasRoom(cfg.perGroup, name);
  }
}
