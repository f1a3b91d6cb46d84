/**
 The dentry file as the code changes it: a group is read into a buffer, edited
 slot by slot and written back.  Each operation is proved to compute the
 function of module DentryIndex that describes it.
 */
module DentryFile {
  import opened Bytes
  import opened DentryLayout
  import opened DentryGroup
  import opened DentryIndex

  /** One group in memory. */
  class GroupBuffer {
    const bitmap: array<bool>
    const nsl: array<Dentry>
    const filename: array<byte>

    ghost predicate Valid()
      reads this, bitmap, nsl, filename
    {
      && bitmap as object != nsl && bitmap as object != filename && nsl as object != filename
      && Shape(View())
    }

    ghost function View(): Group
      reads this, bitmap, nsl, filename
    {
      Group(bitmap[..], nsl[..], filename[..])
    }

    /** cache_file_read into a new buffer */
    constructor Read(g: Group)
      requires Shape(g)
      ensures Valid() && View() == g
      ensures fresh(bitmap) && fresh(nsl) && fresh(filename)
    {
      var b := new bool[|g.bitmap|](i requires 0 <= i < |g.bitmap| => g.bitmap[i]);
      var d := new Dentry[|g.nsl|](i requires 0 <= i < |g.nsl| => g.nsl[i]);
      var f := new byte[|g.filename|](i requires 0 <= i < |g.filename| => g.filename[i]);
      bitmap, nsl, filename := b, d, f;
      new;
      assert bitmap[..] == g.bitmap && nsl[..] == g.nsl && filename[..] == g.filename;
    }

    /** cache_file_write from the buffer */
    method Contents() returns (g: Group)
      requires Valid()
      ensures g == View()
    {
      g := Group(bitmap[..], nsl[..], filename[..]);
    }

    /** update_dentry writes the record and the name, then marks the slots one by one. */
    method UpdateDentry(p: nat, name: Name, hash: nat, attr: Attr)
      requires Valid() && Fits(View(), p, name)
      modifies bitmap, nsl, filename
      ensures Valid() && View() == Inserted(old(View()), p, name, hash, attr)
    {
      ghost var g := View();
      var slots := Slots(|name|);
      var at := DENTRY_NAME_LEN * p;
      nsl[p] := Dentry(hash, |name|, attr);
      forall k | 0 <= k < |name| {
        filename[at + k] := name[k];
      }
      assert filename[..] == Inserted(g, p, name, hash, attr).filename;
      for i := 0 to slots
        modifies bitmap, nsl
        invariant filename[..] == Inserted(g, p, name, hash, attr).filename
        invariant forall k :: 0 <= k < bitmap.Length ==> bitmap[k] == (p <= k < p + i || g.bitmap[k])
        invariant forall k :: 0 <= k < nsl.Length ==>
                    nsl[k] == if k == p then Dentry(hash, |name|, attr)
                              else if p < k < p + i then g.nsl[k].(namelen := 0)
                              else g.nsl[k]
      {
        bitmap[p + i] := true;
        if i > 0 {
          nsl[p + i] := nsl[p + i].(namelen := 0);
        }
      }
      assert bitmap[..] == Inserted(g, p, name, hash, attr).bitmap;
      assert nsl[..] == Inserted(g, p, name, hash, attr).nsl;
    }

    /** The loop of hmdfs_delete_dentry that frees the slots of a name. */
    method ClearExtent(p: nat)
      requires Valid() && p < bitmap.Length && p + Extent(View(), p) <= bitmap.Length
      modifies bitmap
      ensures Valid() && View() == Removed(old(View()), p)
    {
      ghost var g := View();
      var slots := Slots(nsl[p].namelen);
      for i := 0 to slots
        invariant forall k :: 0 <= k < bitmap.Length ==> bitmap[k] == (!(p <= k < p + i) && g.bitmap[k])
      {
        bitmap[p + i] := false;
      }
      assert bitmap[..] == Removed(g, p).bitmap;
    }
  }

  /** find_in_block: the first exact hit, and the first case-folded one met before it. */
  method FindInBlock(g: Group, hash: nat, name: Name, caseSensitive: bool, already: Option<nat>)
    returns (de: Option<nat>, insense: Option<nat>)
    requires WellFormed(g)
    ensures de == FirstHit(g, hash, name, false, 0)
    ensures already.Some? || caseSensitive ==> insense == already
    ensures already.None? && !caseSensitive && de.None? ==> insense == FirstHit(g, hash, name, true, 0)
  {
    insense := already;
    var bitPos := 0;
    while bitPos < |g.bitmap|
      invariant FirstHit(g, hash, name, false, 0) == FirstHit(g, hash, name, false, bitPos)
      invariant already.Some? || caseSensitive ==> insense == already
      invariant already.None? && !caseSensitive ==>
                  FirstHit(g, hash, name, true, 0) ==
                  if insense.Some? then insense else FirstHit(g, hash, name, true, bitPos)
    {
      WalkStep(g, bitPos, hash, name, false);
      WalkStep(g, bitPos, hash, name, true);
      if !g.bitmap[bitPos] {
        bitPos := bitPos + 1;
        continue;
      }
      if g.nsl[bitPos].namelen == 0 {
        bitPos := bitPos + 1;
        continue;
      }
      if HitAt(g, bitPos, hash, name, false) {
        return Some(bitPos), insense;
      }
      if insense.None? && !caseSensitive && HitAt(g, bitPos, hash, name, true) {
        insense := Some(bitPos);
      }
      bitPos := bitPos + Slots(g.nsl[bitPos].namelen);
    }
    de := None;
  }

  /** One step of the walk: to the next slot, or over the whole extent of a head. */
  lemma WalkStep(g: Group, j: nat, hash: nat, name: Name, fold: bool)
    requires WellFormed(g) && j < |g.bitmap|
    ensures IsHead(g, j) ==> j < j + Extent(g, j) <= |g.bitmap|
    ensures FirstHit(g, hash, name, fold, j) ==
            if HitAt(g, j, hash, name, fold) then Some(j)
            else FirstHit(g, hash, name, fold, if IsHead(g, j) then j + Extent(g, j) else j + 1)
  {
    if IsHead(g, j) && !HitAt(g, j, hash, name, fold) {
      forall i | j <= i < j + Extent(g, j) ensures !HitAt(g, i, hash, name, fold) {
        if i > j {
          assert Covers(g, j, i);
        }
      }
      FirstHitSkip(g, hash, name, fold, j, j + Extent(g, j));
    }
  }

  class DentryFile {
    const cfg: Config
    var groups: seq<Group>

    ghost predicate Valid()
      reads this
    {
      IndexInv(cfg, groups)
    }

    /** A new cache file is empty. */
    constructor (cfg: Config)
      requires ValidConfig(cfg)
      ensures Valid() && this.cfg == cfg && groups == [] && Entries(groups) == multiset{}
    {
      this.cfg := cfg;
      groups := [];
      new;
      MaxDepthOfWholeLevels(0);
    }

    /** A group read into a buffer of its own, as before every change. */
    method ReadGroup(bidx: nat) returns (page: GroupBuffer)
      requires Valid() && bidx < |groups|
      ensures page.Valid() && page.View() == groups[bidx] && GroupInv(cfg, bidx, groups[bidx])
      ensures fresh(page) && fresh(page.bitmap) && fresh(page.nsl) && fresh(page.filename)
    {
      AllGroupsAt(cfg, groups, |groups|, bidx);
      page := new GroupBuffer.Read(groups[bidx]);
    }

    /**
     hmdfs_in_level: the two groups of the bucket.  `earlier` is the case-folded
     hit of a lower level, which a later one does not replace.
     */
    method InLevel(level: nat, hash: nat, name: Name, earlier: Option<Loc>)
      returns (de: Option<Loc>, insense: Option<Loc>)
      requires Valid() && level < MaxDepth(|groups|) <= MAX_BUCKET_LEVEL
      ensures BucketGroup(level, hash) + 1 < |groups|
      ensures var bucket := [BucketGroup(level, hash), BucketGroup(level, hash) + 1];
              && de == SearchHit(groups, bucket, hash, name, false)
              && (de.None? ==> insense == if earlier.Some? || cfg.caseSensitive then earlier
                                          else SearchHit(groups, bucket, hash, name, true))
    {
      var bidx := BUCKET_BLOCKS * BucketAddr(level, hash % BucketsByLevel(level));
      var endBlock := bidx + BUCKET_BLOCKS;
      BucketPresent(level, hash, MaxDepth(|groups|));
      ghost var rest: seq<nat> := [bidx, bidx + 1];
      ghost var exact, folded := SearchHit(groups, rest, hash, name, false), SearchHit(groups, rest, hash, name, true);
      var tmp: Option<nat> := None;
      de, insense := None, earlier;
      while bidx < endBlock
        invariant OnGroups(groups, rest)
        invariant rest == if bidx + 2 == endBlock then [bidx, bidx + 1] else if bidx + 1 == endBlock then [bidx] else []
        invariant exact == SearchHit(groups, rest, hash, name, false)
        invariant earlier.Some? || cfg.caseSensitive ==> insense == earlier
        invariant earlier.None? && !cfg.caseSensitive ==>
                    folded == if insense.Some? then insense else SearchHit(groups, rest, hash, name, true)
        invariant earlier.None? ==> (tmp.Some? <==> insense.Some?)
        invariant cfg.caseSensitive ==> tmp.None?
      {
        var slot: Option<nat>;
        AllGroupsAt(cfg, groups, |groups|, bidx);
        slot, tmp := FindInBlock(groups[bidx], hash, name, cfg.caseSensitive, tmp);
        if slot.Some? {
          de := Some(Loc(bidx, slot.value));
          return;
        }
        if insense.None? && tmp.Some? {
          insense := Some(Loc(bidx, tmp.value));
        }
        rest := rest[1..];
        bidx := bidx + 1;
      }
    }

    /** hmdfs_find_dentry */
    method FindDentry(name: Name) returns (de: Option<Loc>)
      requires Valid()
      ensures de == Find(cfg, groups, name)
    {
      var hash := cfg.hash(name);
      PathInside(cfg, groups, hash);
      var maxDepth := MaxDepth(|groups|);
      var insense: Option<Loc> := None;
      for level := 0 to maxDepth
        invariant OnGroups(groups, Path(hash, level))
        invariant SearchHit(groups, Path(hash, level), hash, name, false).None?
        invariant insense == if cfg.caseSensitive then None else SearchHit(groups, Path(hash, level), hash, name, true)
      {
        BucketPresent(level, hash, maxDepth);
        PathStep(groups, hash, name, level, false);
        PathStep(groups, hash, name, level, true);
        de, insense := InLevel(level, hash, name, insense);
        if de.Some? {
          FoundEarly(groups, hash, name, level + 1, maxDepth);
          return;
        }
      }
      de := insense;
    }

    /** hmdfs_delete_dentry */
    method DeleteDentry(name: Name)
      requires Valid()
      modifies this
      ensures Valid() && groups == Delete(cfg, old(groups), name)
    {
      DeleteCorrect(cfg, groups, name);
      FindCorrect(cfg, groups, name);
      var de := FindDentry(name);
      if de.None? {
        return;
      }
      var bidx := de.value.group;
      var page := ReadGroup(bidx);
      page.ClearExtent(de.value.slot);
      var written := page.Contents();
      groups := groups[bidx := written];
    }

    /** The inner loop of create_dentry: the first group of the bucket with room takes the name. */
    method AddInBucket(first: nat, name: Name, attr: Attr) returns (ok: bool)
      requires Valid() && 0 < |name| && first + BUCKET_BLOCKS <= |groups|
      modifies this
      ensures Shaped(cfg, old(groups))
      ensures var r := FilledBucket(cfg, old(groups), first, name, attr);
              ok == r.Some? && groups == if r.Some? then r.value else old(groups)
    {
      GroupShapes(cfg, groups);
      var bidx, endBlock := first, first + BUCKET_BLOCKS;
      while bidx < endBlock
        invariant first <= bidx <= endBlock && groups == old(groups)
        invariant first < bidx ==> Room(groups[first], name) >= cfg.perGroup
        invariant first + 1 < bidx ==> Room(groups[first + 1], name) >= cfg.perGroup
      {
        var page := ReadGroup(bidx);
        var bitPos := RoomForFilename(page.bitmap[..], Slots(|name|));
        if bitPos < cfg.perGroup {
          page.UpdateDentry(bitPos, name, cfg.hash(name), attr);
          var written := page.Contents();
          groups := groups[bidx := written];
          return true;
        }
        bidx := bidx + 1;
      }
      ok := false;
    }

    /** create_dentry; false stands for -ENOSPC. */
    method CreateDentry(name: Name, attr: Attr) returns (ok: bool)
      requires Valid() && 0 < |name| && Slots(|name|) <= cfg.perGroup
      modifies this
      ensures Valid()
      ensures var r := Create(cfg, old(groups), name, attr); groups == r.groups && ok == r.Stored?
    {
      ghost var before, depth := groups, MaxDepth(|groups|);
      DepthBound(depth);
      var hash := cfg.hash(name);
      var level := 0;
      while level != MAX_BUCKET_LEVEL
        invariant level <= depth && groups == before
        invariant FirstRoom(cfg, before, name, 0, depth) == FirstRoom(cfg, before, name, level, depth)
        decreases depth - level
      {
        var bidx := BucketGroup(level, hash);
        if level < depth {
          CreateAtLevel(cfg, before, name, attr, level, depth, bidx);
        } else {
          CreateBeyond(cfg, before, name, attr, depth, bidx);
        }
        if bidx + BUCKET_BLOCKS > |groups| {
          if LevelGroups(level + 1) > cfg.maxGroups {
            return false;
          }
          groups := Truncated(cfg, groups, level);
        }
        ok := AddInBucket(bidx, name, attr);
        if ok {
          CreatedIsValid(cfg, before, name, attr);
          return;
        }
        level := level + 1;
      }
      ok := false;
    }
  }

  /** The file after the first group of a bucket with room took the name; None when both are full. */
  ghost function FilledBucket(cfg: Config, groups: seq<Group>, first: nat, name: Name, attr: Attr): Option<seq<Group>>
    requires Shaped(cfg, groups) && 0 < |name| && first + BUCKET_BLOCKS <= |groups|
  {
    if Room(groups[first], name) < cfg.perGroup then Some(Filled(cfg, groups, first, name, attr))
    else if Room(groups[first + 1], name) < cfg.perGroup then Some(Filled(cfg, groups, first + 1, name, attr))
    else None
  }

  lemma CreatedIsValid(cfg: Config, groups: seq<Group>, name: Name, attr: Attr)
    requires IndexInv(cfg, groups) && 0 < |name| && Slots(|name|) <= cfg.perGroup
    ensures IndexInv(cfg, Create(cfg, groups, name, attr).groups)
  {
    CreateCorrect(cfg, groups, name, attr);
  }

  /** What looking at a level that is present contributes to an insertion: the name, or nothing */
  lemma CreateAtLevel(cfg: Config, groups: seq<Group>, name: Name, attr: Attr, level: nat, depth: nat, b: nat)
    requires IndexInv(cfg, groups) && depth == MaxDepth(|groups|) < MAX_BUCKET_LEVEL
    requires 0 < |name| && Slots(|name|) <= cfg.perGroup
    requires level < depth && b == BucketGroup(level, cfg.hash(name))
    requires FirstRoom(cfg, groups, name, 0, depth) == FirstRoom(cfg, groups, name, level, depth)
    ensures Shaped(cfg, groups) && b + BUCKET_BLOCKS <= |groups|
    ensures var r := FilledBucket(cfg, groups, b, name, attr);
            && (r.Some? ==> Create(cfg, groups, name, attr) == Stored(r.value))
            && (r.None? ==>
                 FirstRoom(cfg, groups, name, level, depth) == FirstRoom(cfg, groups, name, level + 1, depth))
  {
    GroupShapes(cfg, groups);
    LevelPresence(level, cfg.hash(name), depth);
    FirstRoomHere(cfg, groups, name, level, depth, b);
    var c := FirstRoom(cfg, groups, name, 0, depth);
    if c.Some? {
      CreateThere(cfg, groups, name, attr, c.value);
    }
  }

  lemma FirstRoomHere(cfg: Config, groups: seq<Group>, name: Name, level: nat, depth: nat, b: nat)
    requires |name| > 0 && level < depth <= MAX_BUCKET_LEVEL && b == BucketGroup(level, cfg.hash(name))
             && b + 1 < |groups|
    ensures FirstRoom(cfg, groups, name, level, depth) ==
            if Room(groups[b], name) < cfg.perGroup then Some(b)
            else if Room(groups[b + 1], name) < cfg.perGroup then Some(b + 1)
            else FirstRoom(cfg, groups, name, level + 1, depth)
  {
  }

  lemma CreateThere(cfg: Config, groups: seq<Group>, name: Name, attr: Attr, b: nat)
    requires IndexInv(cfg, groups) && 0 < |name| && Slots(|name|) <= cfg.perGroup
             && MaxDepth(|groups|) < MAX_BUCKET_LEVEL
    requires FirstRoom(cfg, groups, name, 0, MaxDepth(|groups|)) == Some(b)
    ensures Shaped(cfg, groups) && Create(cfg, groups, name, attr) == Stored(Filled(cfg, groups, b, name, attr))
  {
    GroupShapes(cfg, groups);
  }

  /** What the first level that is not present contributes: the name in a new level, or no space */
  lemma CreateBeyond(cfg: Config, groups: seq<Group>, name: Name, attr: Attr, depth: nat, b: nat)
    requires IndexInv(cfg, groups) && depth == MaxDepth(|groups|) < MAX_BUCKET_LEVEL
    requires 0 < |name| && Slots(|name|) <= cfg.perGroup && b == BucketGroup(depth, cfg.hash(name))
    requires FirstRoom(cfg, groups, name, 0, depth).None?
    ensures b + BUCKET_BLOCKS > |groups|
    ensures LevelGroups(depth + 1) > cfg.maxGroups ==> Create(cfg, groups, name, attr) == NoSpace(groups)
    ensures LevelGroups(depth + 1) <= cfg.maxGroups ==>
              var grown := Truncated(cfg, groups, depth);
              && IndexInv(cfg, grown) && Shaped(cfg, grown) && b + BUCKET_BLOCKS <= |grown|
              && var r := FilledBucket(cfg, grown, b, name, attr);
                 r.Some? && Create(cfg, groups, name, attr) == Stored(r.value)
  {
    LevelPresence(depth, cfg.hash(name), depth);
    if LevelGroups(depth + 1) <= cfg.maxGroups {
      NewLevelHasRoom(cfg, groups, name, depth);
      GroupShapes(cfg, Truncated(cfg, groups, depth));
    }
  }

  lemma LevelPresence(level: nat, hash: nat, depth: nat)
    requires level < MAX_BUCKET_LEVEL
    ensures BucketGroup(level, hash) + BUCKET_BLOCKS <= LevelGroups(depth) <==> level < depth
  {
    BucketGroupInside(level, hash, depth);
  }

  lemma PathStep(groups: seq<Group>, hash: nat, name: Name, level: nat, fold: bool)
    requires level < MAX_BUCKET_LEVEL && OnGroups(groups, Path(hash, level))
    requires BucketGroup(level, hash) + 1 < |groups|
    ensures OnGroups(groups, Path(hash, level + 1))
    ensures SearchHit(groups, Path(hash, level + 1), hash, name, fold) ==
            var s := SearchHit(groups, Path(hash, level), hash, name, fold);
            if s.Some? then s
            else SearchHit(groups, [BucketGroup(level, hash), BucketGroup(level, hash) + 1], hash, name, fold)
  {
    SearchAppend(groups, Path(hash, level), [BucketGroup(level, hash), BucketGroup(level, hash) + 1], hash, name, fold);
  }

  /** A hit on the first levels is the hit of the whole search. */
  lemma {:induction false} FoundEarly(groups: seq<Group>, hash: nat, name: Name, level: nat, depth: nat)
    requires level <= depth <= MAX_BUCKET_LEVEL && OnGroups(groups, Path(hash, depth))
    ensures OnGroups(groups, Path(hash, level))
    ensures SearchHit(groups, Path(hash, level), hash, name, false).Some? ==>
            SearchHit(groups, Path(hash, depth), hash, name, false) ==
            SearchHit(groups, Path(hash, level), hash, name, false)
  {
    if level < depth {
      var low := BucketGroup(depth - 1, hash);
      var path := Path(hash, depth - 1);
      assert Path(hash, depth) == path + [low, low + 1];
      forall k | 0 <= k < |path| ensures path[k] < |groups| {
        assert Path(hash, depth)[k] == path[k];
      }
      assert Path(hash, depth)[|path|] == low && Path(hash, depth)[|path| + 1] == low + 1;
      FoundEarly(groups, hash, name, level, depth - 1);
      PathStep(groups, hash, name, depth - 1, false);
    }
  }
}
