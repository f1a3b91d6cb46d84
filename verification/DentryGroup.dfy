/**
 One 4096-byte group of the directory index: a slot bitmap, one dentry record
 per slot and eight name bytes per slot.  A name occupies consecutive slots; the
 first one carries the record and the others have a zero name length.
 */
module DentryGroup {

  import opened Bytes

  type Name = seq<byte>

  const DENTRY_NAME_LEN: nat := 8

  /** The inode attributes copied into a record. */
  datatype Attr = Attr(mode: nat, size: nat, mtime: int, mtimeNsec: nat, ino: nat)

  datatype Dentry = Dentry(hash: nat, namelen: nat, attr: Attr)

  /** What a live record stands for. */
  datatype Entry = Entry(name: Name, attr: Attr)

  datatype Group = Group(bitmap: seq<bool>, nsl: seq<Dentry>, filename: seq<byte>)

  const NO_ATTR := Attr(0, 0, 0, 0, 0)

  /** The group read back from a part of the file that was never written. */
  function ZeroGroup(n: nat): (g: Group)
    ensures WellFormed(g) && |g.bitmap| == n && Scan(g, 0) == []
  {
    var g := Group(seq(n, _ => false), seq(n, _ => Dentry(0, 0, NO_ATTR)), seq(DENTRY_NAME_LEN * n, _ => 0 as byte));
    NoHeadsNoScan(g, 0);
    g
  }

  /** get_dentry_slots */
  function Slots(len: nat): nat {
    (len + 7) / 8
  }

  /** A name takes the fewest slots that have room for its bytes. */
  lemma SlotsLeast(len: nat, n: nat)
    ensures DENTRY_NAME_LEN * Slots(len) >= len
    ensures DENTRY_NAME_LEN * n >= len ==> n >= Slots(len)
  {
  }

  predicate Shape(g: Group) {
    && |g.nsl| == |g.bitmap|
    && |g.filename| == DENTRY_NAME_LEN * |g.bitmap|
  }

  predicate IsHead(g: Group, i: int) {
    0 <= i < |g.bitmap| && i < |g.nsl| && g.bitmap[i] && g.nsl[i].namelen > 0
  }

  function Extent(g: Group, i: nat): nat
    requires i < |g.nsl|
  {
    Slots(g.nsl[i].namelen)
  }

  /** A set slot that no name starts at. */
  predicate IsContinuation(g: Group, k: int) {
    0 <= k < |g.bitmap| && k < |g.nsl| && g.bitmap[k] && g.nsl[k].namelen == 0
  }

  /** `k` is a continuation slot of the name that starts at `i`. */
  predicate Covers(g: Group, i: int, k: int) {
    IsHead(g, i) && i < k < i + Extent(g, i)
  }

  /**
   The set bits are partitioned into extents: each head is followed by set
   continuation slots of name length zero, and every set slot of name length
   zero belongs to some head.
   */
  ghost predicate WellFormed(g: Group) {
    && Shape(g)
    && (forall i :: IsHead(g, i) ==> i + Extent(g, i) <= |g.bitmap|)
    && (forall i, k :: Covers(g, i, k) ==> IsContinuation(g, k))
    && (forall k :: IsContinuation(g, k) ==> exists i :: Covers(g, i, k))
  }

  /** The name bytes that start at slot `i`. */
  function NameBytes(g: Group, i: nat, len: nat): Name {
    var at := DENTRY_NAME_LEN * i;
    if at + len <= |g.filename| then g.filename[at..at + len] else []
  }

  function EntryAt(g: Group, i: nat): Entry
    requires IsHead(g, i)
  {
    Entry(NameBytes(g, i, g.nsl[i].namelen), g.nsl[i].attr)
  }

  /** The live entries in slot order from slot `j`: what a linear scan reports. */
  function Scan(g: Group, j: nat): seq<Entry>
    decreases |g.bitmap| - j
  {
    if j >= |g.bitmap| then []
    else if IsHead(g, j) then [EntryAt(g, j)] + Scan(g, j + 1)
    else Scan(g, j + 1)
  }

  lemma {:induction false} NoHeadsNoScan(g: Group, j: nat)
    requires forall i :: j <= i < |g.bitmap| ==> !IsHead(g, i)
    ensures Scan(g, j) == []
    decreases |g.bitmap| - j
  {
    if j < |g.bitmap| {
      NoHeadsNoScan(g, j + 1);
    }
  }

  // ----- the two traversals -----

  /** The heads in increasing order, found by testing every slot (readdir). */
  function LinearHeads(g: Group, j: nat): seq<nat>
    decreases |g.bitmap| - j
  {
    if j >= |g.bitmap| then []
    else if IsHead(g, j) then [j] + LinearHeads(g, j + 1)
    else LinearHeads(g, j + 1)
  }

  /** The heads met by the walk of find_in_block, which jumps over each extent. */
  function WalkHeads(g: Group, j: nat): seq<nat>
    requires Shape(g)
    decreases |g.bitmap| - j
  {
    if j >= |g.bitmap| then []
    else if !g.bitmap[j] || g.nsl[j].namelen == 0 then WalkHeads(g, j + 1)
    else [j] + WalkHeads(g, j + Extent(g, j))
  }

  lemma {:induction false} SkipHeadless(g: Group, j: nat, k: nat)
    requires j <= k && forall i :: j <= i < k ==> !IsHead(g, i)
    ensures LinearHeads(g, j) == LinearHeads(g, k)
    decreases k - j
  {
    if j < k && j < |g.bitmap| {
      SkipHeadless(g, j + 1, k);
    }
  }

  /** The skipping walk and the linear scan see the same heads. */
  lemma {:induction false} WalkIsLinear(g: Group, j: nat)
    requires WellFormed(g)
    ensures WalkHeads(g, j) == LinearHeads(g, j)
    decreases |g.bitmap| - j
  {
    if j < |g.bitmap| {
      if IsHead(g, j) {
        var next := j + Extent(g, j);
        forall i | j + 1 <= i < next ensures !IsHead(g, i) {
          assert Covers(g, j, i);
        }
        SkipHeadless(g, j + 1, next);
        WalkIsLinear(g, next);
      } else {
        WalkIsLinear(g, j + 1);
      }
    }
  }

  // ----- the slot allocator -----

  predicate FreeRun(bitmap: seq<bool>, p: nat, slots: nat) {
    p + slots <= |bitmap| && forall k :: p <= k < p + slots ==> !bitmap[k]
  }

  /** The lowest start, from `j` on, of `slots` clear bits; |bitmap| when there is none. */
  function FirstFit(bitmap: seq<bool>, slots: nat, j: nat): (p: nat)
    requires slots > 0
    ensures p == |bitmap| || p + slots <= |bitmap|
    decreases |bitmap| - j
  {
    if j >= |bitmap| then |bitmap|
    else if FreeRun(bitmap, j, slots) then j
    else FirstFit(bitmap, slots, j + 1)
  }

  lemma {:induction false} FirstFitLowest(bitmap: seq<bool>, slots: nat, j: nat)
    requires slots > 0
    ensures var p := FirstFit(bitmap, slots, j);
            && (p < |bitmap| ==> FreeRun(bitmap, p, slots))
            && forall k :: j <= k < p ==> !FreeRun(bitmap, k, slots)
    decreases |bitmap| - j
  {
    if j < |bitmap| && !FreeRun(bitmap, j, slots) {
      FirstFitLowest(bitmap, slots, j + 1);
    }
  }

  lemma {:induction false} FirstFitUnique(bitmap: seq<bool>, slots: nat, j: nat, p: nat)
    requires slots > 0 && j <= p <= |bitmap|
    requires forall k :: j <= k < p ==> !FreeRun(bitmap, k, slots)
    requires p < |bitmap| ==> FreeRun(bitmap, p, slots)
    ensures FirstFit(bitmap, slots, j) == p
    decreases p - j
  {
    if j < p {
      FirstFitUnique(bitmap, slots, j + 1, p);
    }
  }

  /** find_next_zero_bit_le and find_next_bit_le */
  function NextBit(bitmap: seq<bool>, value: bool, j: nat): (r: nat)
    requires j <= |bitmap|
    ensures j <= r <= |bitmap|
    ensures forall k :: j <= k < r ==> bitmap[k] != value
    ensures r < |bitmap| ==> bitmap[r] == value
    decreases |bitmap| - j
  {
    if j == |bitmap| || bitmap[j] == value then j else NextBit(bitmap, value, j + 1)
  }

  /** room_for_filename is first fit. */
  method RoomForFilename(bitmap: seq<bool>, slots: nat) returns (pos: nat)
    requires slots > 0
    ensures pos == FirstFit(bitmap, slots, 0)
  {
    var bitStart := 0;
    while true
      invariant 0 <= bitStart <= |bitmap|
      invariant forall k :: 0 <= k < bitStart ==> !FreeRun(bitmap, k, slots)
      decreases |bitmap| - bitStart
    {
      var zeroStart := NextBit(bitmap, false, bitStart);
      forall k | bitStart <= k < zeroStart ensures !FreeRun(bitmap, k, slots) {
        assert bitmap[k];
      }
      if zeroStart >= |bitmap| {
        FirstFitUnique(bitmap, slots, 0, |bitmap|);
        return |bitmap|;
      }
      var zeroEnd := NextBit(bitmap, true, zeroStart);
      if zeroEnd - zeroStart >= slots {
        FirstFitUnique(bitmap, slots, 0, zeroStart);
        return zeroStart;
      }
      forall k | zeroStart <= k <= zeroEnd ensures !FreeRun(bitmap, k, slots) {
        assert zeroEnd < |bitmap| ==> bitmap[zeroEnd];
      }
      bitStart := zeroEnd + 1;
      if zeroEnd + 1 >= |bitmap| {
        FirstFitUnique(bitmap, slots, 0, |bitmap|);
        return |bitmap|;
      }
    }
  }

  // ----- inserting and removing a name -----

  predicate Fits(g: Group, p: nat, name: Name) {
    Shape(g) && |name| > 0 && p + Slots(|name|) <= |g.bitmap|
  }

  /** The group after update_dentry wrote `name` at slot `p`. */
  function Inserted(g: Group, p: nat, name: Name, hash: nat, attr: Attr): (r: Group)
    requires Fits(g, p, name)
    ensures Shape(r) && |r.bitmap| == |g.bitmap|
  {
    var s := Slots(|name|);
    var at := DENTRY_NAME_LEN * p;
    Group(
      seq(|g.bitmap|, i requires 0 <= i < |g.bitmap| => p <= i < p + s || g.bitmap[i]),
      seq(|g.nsl|, i requires 0 <= i < |g.nsl| =>
        if i == p then Dentry(hash, |name|, attr)
        else if p < i < p + s then g.nsl[i].(namelen := 0)
        else g.nsl[i]),
      g.filename[..at] + name + g.filename[at + |name|..])
  }

  /** The group after hmdfs_delete_dentry cleared the extent at `p`. */
  function Removed(g: Group, p: nat): (r: Group)
    requires Shape(g) && p < |g.bitmap|
    ensures Shape(r) && |r.bitmap| == |g.bitmap|
  {
    g.(bitmap := seq(|g.bitmap|, i requires 0 <= i < |g.bitmap| =>
      !(p <= i < p + Extent(g, p)) && g.bitmap[i]))
  }

  /** Inserting into free slots adds one head and leaves every other head as it was. */
  lemma InsertedHeads(g: Group, p: nat, name: Name, hash: nat, attr: Attr)
    requires WellFormed(g) && Fits(g, p, name) && FreeRun(g.bitmap, p, Slots(|name|))
    ensures var r := Inserted(g, p, name, hash, attr);
            && (forall i :: IsHead(r, i) <==> i == p || IsHead(g, i))
            && (forall i :: IsHead(g, i) ==> r.nsl[i] == g.nsl[i] && i != p)
            && (forall i, k :: Covers(r, i, k) <==> Covers(g, i, k) || (i == p && p < k < p + Slots(|name|)))
  {
    var r := Inserted(g, p, name, hash, attr);
    forall i | IsHead(g, i) ensures i < p || i >= p + Slots(|name|) {
      assert g.bitmap[i];
    }
  }

  lemma InsertedWellFormed(g: Group, p: nat, name: Name, hash: nat, attr: Attr)
    requires WellFormed(g) && Fits(g, p, name) && FreeRun(g.bitmap, p, Slots(|name|))
    ensures WellFormed(Inserted(g, p, name, hash, attr))
  {
    var r := Inserted(g, p, name, hash, attr);
    InsertedHeads(g, p, name, hash, attr);
    forall i, k | Covers(r, i, k) ensures IsContinuation(r, k) {
      if Covers(g, i, k) {
        assert IsContinuation(g, k);
      }
    }
    forall k | IsContinuation(r, k) ensures exists i :: Covers(r, i, k) {
      if p <= k < p + Slots(|name|) {
        assert Covers(r, p, k);
      } else {
        assert IsContinuation(g, k);
        var i :| Covers(g, i, k);
        assert Covers(r, i, k);
      }
    }
  }

  lemma InsertedEntry(g: Group, p: nat, name: Name, hash: nat, attr: Attr, i: nat)
    requires WellFormed(g) && Fits(g, p, name) && FreeRun(g.bitmap, p, Slots(|name|))
    requires IsHead(g, i) || i == p
    ensures var r := Inserted(g, p, name, hash, attr);
            && WellFormed(r) && IsHead(r, i)
            && EntryAt(r, i) == if i == p then Entry(name, attr) else EntryAt(g, i)
  {
    var r := Inserted(g, p, name, hash, attr);
    InsertedHeads(g, p, name, hash, attr);
    InsertedWellFormed(g, p, name, hash, attr);
    assert !Covers(g, i, p);
    assert EntryAt(r, i).name == if i == p then name else EntryAt(g, i).name;
  }

  lemma AddNew<T>(x: T, s: seq<T>)
    ensures multiset([x] + s) == multiset(s) + multiset{x}
  {
  }

  lemma AddFirst<T>(x: T, s: seq<T>, t: seq<T>, extra: multiset<T>)
    requires multiset(s) == multiset(t) + extra
    ensures multiset([x] + s) == multiset([x] + t) + extra
  {
  }

  /** `r` has the heads of `g`, with the same entries, and one more at `p`. */
  ghost predicate OneMore(g: Group, r: Group, p: nat, e: Entry) {
    && |r.bitmap| == |g.bitmap|
    && IsHead(r, p) && EntryAt(r, p) == e && !IsHead(g, p)
    && forall i :: i != p ==> (IsHead(g, i) <==> IsHead(r, i)) && (IsHead(g, i) ==> EntryAt(r, i) == EntryAt(g, i))
  }

  lemma {:induction false} OneMoreScan(g: Group, r: Group, p: nat, e: Entry, j: nat)
    requires OneMore(g, r, p, e)
    ensures multiset(Scan(r, j)) == multiset(Scan(g, j)) + (if j <= p then multiset{e} else multiset{})
    decreases |g.bitmap| - j
  {
    if j < |g.bitmap| {
      OneMoreScan(g, r, p, e, j + 1);
      if j == p {
        AddNew(e, Scan(r, j + 1));
      } else if IsHead(r, j) {
        AddFirst(EntryAt(r, j), Scan(r, j + 1), Scan(g, j + 1), if j + 1 <= p then multiset{e} else multiset{});
      }
    }
  }

  /** Inserting adds exactly the new entry. */
  lemma InsertedOneMore(g: Group, p: nat, name: Name, hash: nat, attr: Attr)
    requires WellFormed(g) && Fits(g, p, name) && FreeRun(g.bitmap, p, Slots(|name|))
    ensures OneMore(g, Inserted(g, p, name, hash, attr), p, Entry(name, attr))
  {
    var r := Inserted(g, p, name, hash, attr);
    InsertedHeads(g, p, name, hash, attr);
    forall i | i == p || IsHead(g, i)
      ensures IsHead(r, i) && EntryAt(r, i) == if i == p then Entry(name, attr) else EntryAt(g, i)
    {
      InsertedEntry(g, p, name, hash, attr, i);
    }
    assert !IsHead(g, p);
  }

  /** Removing a head leaves every other head, and no continuation slot without one. */
  lemma RemovedHeads(g: Group, p: nat)
    requires WellFormed(g) && IsHead(g, p)
    ensures var r := Removed(g, p);
            && (forall i :: IsHead(r, i) <==> IsHead(g, i) && i != p)
            && (forall i, k :: Covers(r, i, k) <==> Covers(g, i, k) && i != p)
  {
    var r := Removed(g, p);
    forall i | IsHead(g, i) && i != p ensures i < p || i >= p + Extent(g, p) {
      assert !Covers(g, p, i);
    }
  }

  lemma ExtentsDisjoint(g: Group, i: int, p: int, k: int)
    requires WellFormed(g) && Covers(g, i, k) && IsHead(g, p) && i != p
    ensures !(p <= k < p + Extent(g, p))
  {
    assert IsContinuation(g, k);
    assert !Covers(g, i, p) && !Covers(g, p, i);
  }

  lemma RemovedWellFormed(g: Group, p: nat)
    requires WellFormed(g) && IsHead(g, p)
    ensures WellFormed(Removed(g, p))
  {
    var r := Removed(g, p);
    RemovedHeads(g, p);
    forall i, k | Covers(r, i, k) ensures IsContinuation(r, k) {
      ExtentsDisjoint(g, i, p, k);
      assert IsContinuation(g, k);
    }
    forall k | IsContinuation(r, k) ensures exists i :: Covers(r, i, k) {
      assert IsContinuation(g, k);
      var i :| Covers(g, i, k);
      assert Covers(r, i, k);
    }
  }

  /** Removing takes exactly one entry away. */
  lemma RemovedOneLess(g: Group, p: nat)
    requires WellFormed(g) && IsHead(g, p)
    ensures OneMore(Removed(g, p), g, p, EntryAt(g, p))
  {
    RemovedHeads(g, p);
  }

  lemma {:induction false} ScanMember(g: Group, j: nat, e: Entry)
    ensures e in Scan(g, j) <==> exists i :: i >= j && IsHead(g, i) && EntryAt(g, i) == e
    decreases |g.bitmap| - j
  {
    if j < |g.bitmap| {
      ScanMember(g, j + 1, e);
    }
  }
}
