/**
 Listing a directory index through a 64-bit position that packs the device, the
 group and the slot, and that a later call resumes from.
 */
module Readdir {
  import opened Bytes
  import opened DentryLayout
  import opened DentryGroup
  import opened DentryIndex

  // ----- positions, as 64-bit patterns -----

  const TWO_8: nat := 0x100
  const TWO_16: nat := 0x1_0000
  const TWO_17: nat := 0x2_0000
  const TWO_25: nat := 0x200_0000
  const TWO_38: nat := 0x40_0000_0000
  const TWO_39: nat := 0x80_0000_0000
  const TWO_47: nat := 0x8000_0000_0000
  const TWO_48: nat := 0x1_0000_0000_0000

  /** The position that means end of directory: -1. */
  const END: nat := TWO_64 - 1

  /** hmdfs_set_pos */
  function SetPos(dev: nat, group: nat, offset: nat): nat {
    var pos := (dev * TWO_47 + group * TWO_8 + offset) % TWO_64;
    if dev != 0 && pos < TWO_63 then pos + TWO_63 else pos
  }

  /** An arithmetic right shift of a 64-bit pattern, `scale` being the power of two. */
  function ShiftRight(x: nat, scale: nat): nat
    requires scale > 0
  {
    (Signed64(x) / scale) % TWO_64
  }

  function PosDevice(pos: nat): nat {
    ShiftRight((pos * 2) % TWO_64, TWO_48)
  }

  function PosGroup(pos: nat): nat {
    ShiftRight((pos * TWO_17) % TWO_64, TWO_25)
  }

  function PosOffset(pos: nat): nat {
    pos % TWO_8
  }

  lemma Mod64(x: int, q: int, r: nat)
    requires x == q * TWO_64 + r && r < TWO_64
    ensures x % TWO_64 == r
  {
  }

  /** A field moved to the top comes back unless its top bit is read as a sign. */
  lemma Field48(field: nat, rest: nat)
    requires field < TWO_16 && rest < TWO_48
    ensures ShiftRight(field * TWO_48 + rest, TWO_48) == field <==> field < TWO_15
  {
    var x := field * TWO_48 + rest;
    if field < TWO_15 {
      assert x / TWO_48 == field;
    } else {
      assert (x - TWO_64) / TWO_48 == field - TWO_16;
    }
  }

  lemma Field25(field: nat, rest: nat)
    requires field < TWO_39 && rest < TWO_25
    ensures ShiftRight(field * TWO_25 + rest, TWO_25) == field <==> field < TWO_38
  {
    var x := field * TWO_25 + rest;
    if field < TWO_38 {
      assert x / TWO_25 == field;
    } else {
      assert (x - TWO_64) / TWO_25 == field - TWO_39;
    }
  }

  lemma PosDeviceExact(dev: nat, group: nat, offset: nat)
    requires dev < TWO_16 && group < TWO_39 && offset < TWO_8
    ensures PosDevice(SetPos(dev, group, offset)) == dev <==> dev < TWO_15
  {
    var pos := SetPos(dev, group, offset);
    var low := group * TWO_8 + offset;
    var x := dev * TWO_48 + low * 2;
    Mod64(pos * 2, if dev != 0 then 1 else 0, x);
    Field48(dev, low * 2);
  }

  lemma PosGroupExact(dev: nat, group: nat, offset: nat)
    requires dev < TWO_16 && group < TWO_39 && offset < TWO_8
    ensures PosGroup(SetPos(dev, group, offset)) == group <==> group < TWO_38
  {
    var pos := SetPos(dev, group, offset);
    var x := group * TWO_25 + offset * TWO_17;
    Mod64(pos * TWO_17, dev + (if dev != 0 then TWO_16 else 0), x);
    Field25(group, offset * TWO_17);
  }

  lemma Mod8(x: int, q: int, r: nat)
    requires x == q * TWO_8 + r && r < TWO_8
    ensures x % TWO_8 == r
  {
  }

  lemma PosOffsetExact(dev: nat, group: nat, offset: nat)
    requires dev < TWO_16 && group < TWO_39 && offset < TWO_8
    ensures PosOffset(SetPos(dev, group, offset)) == offset
  {
    Mod8(SetPos(dev, group, offset),
         dev * TWO_39 + group + (if dev != 0 then TWO_39 * TWO_16 else 0), offset);
  }

  lemma PosSign(dev: nat, group: nat, offset: nat)
    requires dev < TWO_15 && group < TWO_39 && offset < TWO_8
    ensures var pos := SetPos(dev, group, offset); pos < END && (pos >= TWO_63 <==> dev != 0)
  {
  }

  /**
   Over the whole of the three bit fields, the shifts decode a position exactly
   when the device id has at most 15 bits and the group at most 38: one more bit
   and the arithmetic shift extends it as a sign.
   */
  lemma PosRoundTrip(dev: nat, group: nat, offset: nat)
    requires dev < TWO_16 && group < TWO_39 && offset < TWO_8
    ensures var pos := SetPos(dev, group, offset);
            && (PosDevice(pos) == dev && PosGroup(pos) == group && PosOffset(pos) == offset <==>
                 dev < TWO_15 && group < TWO_38)
            && (dev < TWO_15 && group < TWO_38 ==> pos != END && (pos >= TWO_63 <==> dev != 0))
  {
    PosDeviceExact(dev, group, offset);
    PosGroupExact(dev, group, offset);
    PosOffsetExact(dev, group, offset);
    if dev < TWO_15 {
      PosSign(dev, group, offset);
    }
  }

  // ----- what is listed -----

  datatype FileType = Dir | Reg | Lnk | Unknown

  /** S_ISDIR, S_ISREG and S_ISLNK on a mode */
  function TypeOf(mode: nat): FileType {
    match (mode / 4096) % 16
    case 4 => Dir
    case 8 => Reg
    case 10 => Lnk
    case _ => Unknown
  }

  const S_IFDIR: nat := 0x4000
  const S_IFREG: nat := 0x8000
  const S_IFLNK: nat := 0xA000

  /** A mode is a type in its upper four bits and permissions below. */
  lemma TypesOfModes(perm: nat)
    requires perm < 0x1000
    ensures TypeOf(S_IFDIR + perm) == Dir && TypeOf(S_IFREG + perm) == Reg && TypeOf(S_IFLNK + perm) == Lnk
    ensures forall t :: 0 <= t < 16 && t * 0x1000 != S_IFDIR && t * 0x1000 != S_IFREG && t * 0x1000 != S_IFLNK ==>
              TypeOf(t * 0x1000 + perm) == Unknown
  {
    forall t | 0 <= t < 16 && t * 0x1000 != S_IFDIR && t * 0x1000 != S_IFREG && t * 0x1000 != S_IFLNK
      ensures TypeOf(t * 0x1000 + perm) == Unknown
    {
      assert (t * 0x1000 + perm) / 4096 == t;
    }
  }

  datatype Item = Item(name: Name, pos: nat, kind: FileType)

  function ItemAt(groups: seq<Group>, dev: nat, b: nat, j: nat): Item
    requires b < |groups| && IsHead(groups[b], j)
  {
    var e := EntryAt(groups[b], j);
    Item(e.name, SetPos(dev, b, j), TypeOf(e.attr.mode))
  }

  /** All items from group `b`, slot `j` on. */
  function Items(groups: seq<Group>, dev: nat, b: nat, j: nat): seq<Item>
    decreases |groups| - b, if b < |groups| then |groups[b].bitmap| - j else 0
  {
    if b >= |groups| then []
    else if j >= |groups[b].bitmap| then Items(groups, dev, b + 1, 0)
    else if IsHead(groups[b], j) then [ItemAt(groups, dev, b, j)] + Items(groups, dev, b, j + 1)
    else Items(groups, dev, b, j + 1)
  }

  /** An item shows the name and the type of an entry. */
  predicate Shows(item: Item, e: Entry) {
    item.name == e.name && item.kind == TypeOf(e.attr.mode)
  }

  /** The items of one group from slot `j` on */
  function GroupItems(g: Group, dev: nat, b: nat, j: nat): seq<Item>
    decreases |g.bitmap| - j
  {
    if j >= |g.bitmap| then []
    else if IsHead(g, j) then [ItemAt([g], dev, 0, j).(pos := SetPos(dev, b, j))] + GroupItems(g, dev, b, j + 1)
    else GroupItems(g, dev, b, j + 1)
  }

  lemma {:induction false} ItemsByGroup(groups: seq<Group>, dev: nat, b: nat, j: nat)
    requires b < |groups|
    ensures Items(groups, dev, b, j) == GroupItems(groups[b], dev, b, j) + Items(groups, dev, b + 1, 0)
    decreases |groups[b].bitmap| - j
  {
    if j < |groups[b].bitmap| {
      ItemsByGroup(groups, dev, b, j + 1);
    }
  }

  lemma {:induction false} GroupItemsShow(g: Group, dev: nat, b: nat, j: nat)
    ensures var items, s := GroupItems(g, dev, b, j), Scan(g, j);
            |items| == |s| && forall k :: 0 <= k < |s| ==> Shows(items[k], s[k])
    decreases |g.bitmap| - j
  {
    if j < |g.bitmap| {
      GroupItemsShow(g, dev, b, j + 1);
    }
  }

  /** The items are the entries of the directory, each once, in (group, slot) order. */
  lemma {:induction false} ItemsAreListing(groups: seq<Group>, dev: nat, b: nat)
    ensures var items, listing := Items(groups, dev, b, 0), Listing(groups, b);
            |items| == |listing| && forall k :: 0 <= k < |items| ==> Shows(items[k], listing[k])
    decreases |groups| - b
  {
    if b < |groups| {
      ItemsByGroup(groups, dev, b, 0);
      GroupItemsShow(groups[b], dev, b, 0);
      ItemsAreListing(groups, dev, b + 1);
    }
  }

  // ----- one call -----

  /** The first group, from `b` on, that cannot be read; `n` when there is none before it. */
  function FirstBad(unreadable: set<nat>, b: nat, n: nat): (r: nat)
    requires b <= n
    ensures b <= r <= n && (r < n ==> r in unreadable) && forall k :: b <= k < r ==> k !in unreadable
    decreases n - b
  {
    if b == n || b in unreadable then b else FirstBad(unreadable, b + 1, n)
  }

  /**
   What analysis_dentry_file_from_con gets to see from a position: its loop index and the number
   of groups are 32-bit ints, and a group that cannot be read ends it.
   */
  function Ahead(groups: seq<Group>, unreadable: set<nat>, pos: nat): seq<Item> {
    var start, n := Signed32(PosGroup(pos)), Signed32(|groups|);
    if start < 0 || start >= n then []
    else Items(groups[..FirstBad(unreadable, start, n)], PosDevice(pos), start, PosOffset(pos))
  }

  /** The loop over the slots of one group: the items taken, and the position of the one refused. */
  method ReadGroup(g: Group, dev: nat, b: nat, from: nat, room: nat) returns (emitted: seq<Item>, refused: Option<nat>)
    requires Shape(g)
    ensures var all := GroupItems(g, dev, b, from);
            && refused == (if room < |all| then Some(all[room].pos) else None)
            && emitted == (if room < |all| then all[..room] else all)
  {
    ghost var all := GroupItems(g, dev, b, from);
    emitted, refused := [], None;
    var j := from;
    while j < |g.bitmap|
      invariant |emitted| <= room && all == emitted + GroupItems(g, dev, b, j)
    {
      if g.bitmap[j] && g.nsl[j].namelen != 0 {
        var pos := SetPos(dev, b, j);
        var item := Item(NameBytes(g, j, g.nsl[j].namelen), pos, TypeOf(g.nsl[j].attr.mode));
        assert all[|emitted|] == item;
        if |emitted| == room {
          return emitted, Some(pos);
        }
        emitted := emitted + [item];
      }
      j := j + 1;
    }
  }

  /** The loop over the groups */
  method ReadGroups(groups: seq<Group>, unreadable: set<nat>, dev: nat, start: nat, n: nat, slot: nat, room: nat)
    returns (emitted: seq<Item>, refused: Option<nat>)
    requires start <= n <= |groups| && forall b :: 0 <= b < |groups| ==> Shape(groups[b])
    ensures var all := Items(groups[..FirstBad(unreadable, start, n)], dev, start, slot);
            && refused == (if room < |all| then Some(all[room].pos) else None)
            && emitted == (if room < |all| then all[..room] else all)
  {
    ghost var end := FirstBad(unreadable, start, n);
    ghost var seen := groups[..end];
    ghost var all := Items(seen, dev, start, slot);
    emitted, refused := [], None;
    var i, offset := start, slot;
    while i < n
      invariant start <= i <= end && |emitted| <= room && refused.None?
      invariant all == emitted + Items(seen, dev, i, offset)
    {
      if i in unreadable {
        assert i == end;
        break;
      }
      assert seen[i] == groups[i];
      ItemsByGroup(seen, dev, i, offset);
      var more;
      more, refused := ReadGroup(groups[i], dev, i, offset, room - |emitted|);
      TakeMore(all, emitted, GroupItems(groups[i], dev, i, offset), Items(seen, dev, i + 1, 0), room);
      emitted := emitted + more;
      if refused.Some? {
        return;
      }
      offset := 0;
      i := i + 1;
    }
    assert Items(seen, dev, i, offset) == [];
  }

  /** Taking items of a group after those before it */
  lemma TakeMore(all: seq<Item>, before: seq<Item>, here: seq<Item>, rest: seq<Item>, room: nat)
    requires all == before + (here + rest) && |before| <= room
    ensures room - |before| < |here| ==>
            room < |all| && all[room] == here[room - |before|] && all[..room] == before + here[..room - |before|]
    ensures all == before + here + rest
  {
  }

  /**
   analysis_dentry_file_from_con with a caller that takes `room` more items and
   refuses the next one.  No group has a negative number, so reading one fails.
   */
  method ReadFrom(groups: seq<Group>, unreadable: set<nat>, pos: nat, room: nat)
    returns (emitted: seq<Item>, pos': nat, full: bool)
    requires forall b :: 0 <= b < |groups| ==> Shape(groups[b])
    ensures var all := Ahead(groups, unreadable, pos);
            && full == (room < |all|)
            && emitted == (if full then all[..room] else all)
            && pos' == (if full then all[room].pos else pos)
  {
    var i, groupNum := Signed32(PosGroup(pos)), Signed32(|groups|);
    emitted, pos', full := [], pos, false;
    if 0 <= i < groupNum {
      var refused;
      emitted, refused := ReadGroups(groups, unreadable, PosDevice(pos), i, groupNum, PosOffset(pos), room);
      if refused.Some? {
        pos', full := refused.value, true;
      }
    }
  }

  // ----- resumed calls -----

  /**
   hmdfs_iterate_remote: reading goes on from the position; -1 marks the end, which is also where a
   call ends up when the peer or the file of the directory is gone (`ready` is false) or a group is unreadable.
   */
  function Iterate(groups: seq<Group>, unreadable: set<nat>, ready: bool, dev: nat, pos: nat, room: nat)
    : (seq<Item>, nat)
  {
    if pos == END || !ready then ([], END)
    else
      var all := Ahead(groups, unreadable, if pos < TWO_63 then SetPos(dev, 0, 0) else pos);
      if room < |all| then (all[..room], all[room].pos) else (all, END)
  }

  method IterateRemote(groups: seq<Group>, unreadable: set<nat>, ready: bool, dev: nat, pos: nat, room: nat)
    returns (emitted: seq<Item>, pos': nat)
    requires forall b :: 0 <= b < |groups| ==> Shape(groups[b])
    ensures (emitted, pos') == Iterate(groups, unreadable, ready, dev, pos, room)
  {
    if pos == END {
      return [], pos;
    }
    emitted, pos' := [], pos;
    if pos' < TWO_63 {
      pos' := SetPos(dev, 0, 0);
    }
    var full := false;
    if ready {
      emitted, pos', full := ReadFrom(groups, unreadable, pos', room);
    }
    if !full {
      pos' := END;
    }
  }

  /**
   Calls with the given buffer sizes on a file that stays as it is, the first at position 0, each next
   one where the last stopped.
   */
  function Session(groups: seq<Group>, dev: nat, rooms: seq<nat>): (seq<Item>, nat) {
    if rooms == [] then ([], 0)
    else
      var n := |rooms| - 1;
      var (items, pos) := Session(groups, dev, rooms[..n]);
      var (more, pos') := Iterate(groups, {}, true, dev, pos, rooms[n]);
      (items + more, pos')
  }

  function Sum(rooms: seq<nat>): nat {
    if rooms == [] then 0 else Sum(rooms[..|rooms| - 1]) + rooms[|rooms| - 1]
  }

  predicate Addressable(groups: seq<Group>) {
    |groups| < TWO_31 && forall b :: 0 <= b < |groups| ==> |groups[b].bitmap| <= TWO_8
  }

  lemma AheadAll(groups: seq<Group>, pos: nat)
    requires |groups| < TWO_31 && PosGroup(pos) < TWO_31
    ensures Ahead(groups, {}, pos) == Items(groups, PosDevice(pos), PosGroup(pos), PosOffset(pos))
  {
    var start, n := PosGroup(pos), |groups|;
    assert Signed32(start) == start && Signed32(n) == n;
    if start < n {
      assert FirstBad({}, start, n) == n;
      assert groups[..n] == groups;
    }
  }

  // ----- devices -----

  /** A position holds the low 16 bits of the device, below the sign bit that every device but 0 sets. */
  lemma SetPosForm(dev: nat, group: nat, offset: nat)
    requires dev > 0 && group < TWO_39 && offset < TWO_8
    ensures SetPos(dev, group, offset) == TWO_63 + (dev % TWO_16) * TWO_47 + group * TWO_8 + offset
  {
    var d, q, low := dev % TWO_16, dev / TWO_16, group * TWO_8 + offset;
    var x := d * TWO_47 + low;
    assert dev * TWO_47 == q * TWO_63 + d * TWO_47;
    if q % 2 == 0 {
      Mod64(dev * TWO_47 + low, q / 2, x);
    } else {
      Mod64(dev * TWO_47 + low, q / 2, TWO_63 + x);
    }
  }

  /** Reading a 16-bit device back extends its top bit as a sign, which keeps the low 16 bits. */
  lemma DeviceBack(dev: nat, group: nat, offset: nat)
    requires dev > 0 && group < TWO_38 && offset < TWO_8
    ensures var pos := SetPos(dev, group, offset);
            && PosDevice(pos) % TWO_16 == dev % TWO_16 && (PosDevice(pos) == 0 <==> dev % TWO_16 == 0)
            && PosGroup(pos) == group && PosOffset(pos) == offset
  {
    var d, pos := dev % TWO_16, SetPos(dev, group, offset);
    SetPosForm(dev, group, offset);
    TopFieldBack(pos, d, group * TWO_8 + offset);
    LowFieldsBack(pos, d, group, offset);
  }

  lemma TopFieldBack(pos: nat, d: nat, low: nat)
    requires d < TWO_16 && low < TWO_47 && pos == TWO_63 + d * TWO_47 + low
    ensures PosDevice(pos) % TWO_16 == d && (PosDevice(pos) == 0 <==> d == 0)
  {
    Mod64(pos * 2, 1, d * TWO_48 + low * 2);
    DeviceShift(d, low * 2);
  }

  lemma LowFieldsBack(pos: nat, d: nat, group: nat, offset: nat)
    requires d < TWO_16 && group < TWO_38 && offset < TWO_8
    requires pos == TWO_63 + d * TWO_47 + group * TWO_8 + offset
    ensures PosGroup(pos) == group && PosOffset(pos) == offset
  {
    Mod64(pos * TWO_17, d + TWO_16, group * TWO_25 + offset * TWO_17);
    Field25(group, offset * TWO_17);
    Mod8(pos, d * TWO_39 + group + TWO_39 * TWO_16, offset);
  }

  lemma DeviceShift(field: nat, rest: nat)
    requires field < TWO_16 && rest < TWO_48
    ensures ShiftRight(field * TWO_48 + rest, TWO_48) == if field < TWO_15 then field else field + (TWO_64 - TWO_16)
  {
    var x := field * TWO_48 + rest;
    if field < TWO_15 {
      assert x / TWO_48 == field;
    } else {
      assert (x - TWO_64) / TWO_48 == field - TWO_16;
    }
  }

  /** Devices that agree in the low 16 bits make the same items. */
  lemma {:induction false} SameItems(groups: seq<Group>, dev: nat, dev': nat, b: nat, j: nat)
    requires Addressable(groups) && dev > 0 && dev' > 0 && dev % TWO_16 == dev' % TWO_16
    ensures Items(groups, dev, b, j) == Items(groups, dev', b, j)
    decreases |groups| - b, if b < |groups| then |groups[b].bitmap| - j else 0
  {
    if b < |groups| {
      if j >= |groups[b].bitmap| {
        SameItems(groups, dev, dev', b + 1, 0);
      } else {
        SameItems(groups, dev, dev', b, j + 1);
        SetPosForm(dev, b, j);
        SetPosForm(dev', b, j);
      }
    }
  }

  /** What is ahead of a position of device `dev`, read back with whatever device the position yields */
  lemma AheadOf(groups: seq<Group>, dev: nat, b: nat, j: nat)
    requires dev % TWO_16 != 0 && Addressable(groups) && b < TWO_31 && j < TWO_8
    ensures Ahead(groups, {}, SetPos(dev, b, j)) == Items(groups, dev, b, j) && TWO_63 <= SetPos(dev, b, j) < END
  {
    var pos := SetPos(dev, b, j);
    SetPosForm(dev, b, j);
    DeviceBack(dev, b, j);
    AheadAll(groups, pos);
    SameItems(groups, dev, PosDevice(pos), b, j);
  }

  /** The position of an item leads back to that item and all that follow it. */
  lemma {:induction false} ResumeAt(groups: seq<Group>, dev: nat, b: nat, j: nat, k: nat)
    requires dev % TWO_16 != 0 && Addressable(groups)
    requires k < |Items(groups, dev, b, j)|
    ensures var pos := Items(groups, dev, b, j)[k].pos;
            TWO_63 <= pos < END && Ahead(groups, {}, pos) == Items(groups, dev, b, j)[k..]
    decreases |groups| - b, if b < |groups| then |groups[b].bitmap| - j else 0
  {
    if j >= |groups[b].bitmap| {
      ResumeAt(groups, dev, b + 1, 0, k);
    } else if !IsHead(groups[b], j) {
      ResumeAt(groups, dev, b, j + 1, k);
    } else if k > 0 {
      ResumeAt(groups, dev, b, j + 1, k - 1);
    } else {
      AheadOf(groups, dev, b, j);
    }
  }

  /**
   The calls deliver the listing from its start, nothing twice and nothing skipped, and stop exactly
   when it is exhausted.
   */
  predicate Delivers(groups: seq<Group>, dev: nat, rooms: seq<nat>) {
    DeliveredUpTo(groups, dev, Session(groups, dev, rooms), Sum(rooms), rooms == [])
  }

  /** For every pattern of buffer sizes the resumed calls deliver the listing. */
  lemma {:induction false} SessionDeliversListing(groups: seq<Group>, dev: nat, rooms: seq<nat>)
    requires dev % TWO_16 != 0 && Addressable(groups)
    ensures Delivers(groups, dev, rooms)
  {
    if rooms != [] {
      var n := |rooms| - 1;
      SessionDeliversListing(groups, dev, rooms[..n]);
      NextCall(groups, dev, Session(groups, dev, rooms[..n]), Sum(rooms[..n]), rooms[n], rooms[..n] == []);
    }
  }

  /** The calls so far delivered `sent` items and stopped at the next one. */
  predicate DeliveredUpTo(groups: seq<Group>, dev: nat, r: (seq<Item>, nat), sent: nat, none: bool) {
    var all := Items(groups, dev, 0, 0);
    && r.0 == (if sent < |all| then all[..sent] else if none then [] else all)
    && (r.1 == END <==> !none && sent >= |all|)
    && (!none && sent < |all| ==> r.1 == all[sent].pos)
    && (none ==> r.1 == 0 && sent == 0)
  }

  lemma NextCall(groups: seq<Group>, dev: nat, r: (seq<Item>, nat), sent: nat, room: nat, none: bool)
    requires dev % TWO_16 != 0 && Addressable(groups) && DeliveredUpTo(groups, dev, r, sent, none)
    ensures var (more, pos) := Iterate(groups, {}, true, dev, r.1, room);
            DeliveredUpTo(groups, dev, (r.0 + more, pos), sent + room, false)
  {
    var all := Items(groups, dev, 0, 0);
    if none {
      AheadOf(groups, dev, 0, 0);
      assert r.0 + all == all;
    } else if sent < |all| {
      ResumeAt(groups, dev, 0, 0, sent);
      assert all[..sent] + all[sent..] == all;
    }
    if sent + room < |all| {
      ResumeAt(groups, dev, 0, 0, sent + room);
    }
  }

  lemma {:induction false} UnsignedItem(groups: seq<Group>, b: nat, j: nat, k: nat)
    requires Addressable(groups) && k < |Items(groups, 0, b, j)|
    ensures Items(groups, 0, b, j)[k].pos < TWO_63
    decreases |groups| - b, if b < |groups| then |groups[b].bitmap| - j else 0
  {
    if j >= |groups[b].bitmap| {
      UnsignedItem(groups, b + 1, 0, k);
    } else if !IsHead(groups[b], j) {
      UnsignedItem(groups, b, j + 1, k);
    } else if k > 0 {
      UnsignedItem(groups, b, j + 1, k - 1);
    }
  }

  /** The first items over and over, as many as each buffer takes */
  function Again(all: seq<Item>, rooms: seq<nat>): seq<Item>
    requires forall k :: 0 <= k < |rooms| ==> rooms[k] < |all|
  {
    if rooms == [] then [] else Again(all, rooms[..|rooms| - 1]) + all[..rooms[|rooms| - 1]]
  }

  /**
   For a multiple of 2^16, and buffers that each hold less than the whole directory, every call delivers
   the first names again, and the listing never comes to its end.
   */
  lemma {:induction false} NeverEnds(groups: seq<Group>, dev: nat, rooms: seq<nat>)
    requires dev > 0 && dev % TWO_16 == 0 && Addressable(groups)
    requires forall k :: 0 <= k < |rooms| ==> rooms[k] < |Items(groups, 0, 0, 0)|
    ensures |Items(groups, 0, 0, 0)| == |Listing(groups, 0)|
    ensures var (items, pos) := Session(groups, dev, rooms);
            pos < TWO_63 && items == Again(Items(groups, 0, 0, 0), rooms)
  {
    ItemsAreListing(groups, 0, 0);
    if rooms != [] {
      var n := |rooms| - 1;
      NeverEnds(groups, dev, rooms[..n]);
      DeviceBack(dev, 0, 0);
      AheadAll(groups, SetPos(dev, 0, 0));
      UnsignedItem(groups, 0, 0, rooms[n]);
    }
  }

  lemma {:induction false} SignedItem(groups: seq<Group>, dev: nat, b: nat, j: nat, k: nat)
    requires dev > 0 && Countable(groups) && k < |Items(groups, dev, b, j)|
    ensures Items(groups, dev, b, j)[k].pos >= TWO_63
    decreases |groups| - b, if b < |groups| then |groups[b].bitmap| - j else 0
  {
    if j >= |groups[b].bitmap| {
      SignedItem(groups, dev, b + 1, 0, k);
    } else if !IsHead(groups[b], j) {
      SignedItem(groups, dev, b, j + 1, k);
    } else if k > 0 {
      SignedItem(groups, dev, b, j + 1, k - 1);
    } else {
      SetPosForm(dev, b, j);
    }
  }

  /** With 2^31 groups or more their number is negative as an int, and nothing is listed from anywhere. */
  lemma TooManyGroups(groups: seq<Group>, pos: nat)
    requires TWO_31 <= |groups| < TWO_32
    ensures Ahead(groups, {}, pos) == []
  {
  }

  /** Files that an index can have: a group count of 32 bits, and slots that fit a position */
  predicate Countable(groups: seq<Group>) {
    |groups| < TWO_32 && forall b :: 0 <= b < |groups| ==> |groups[b].bitmap| <= TWO_8
  }

  lemma {:induction false} EmptyDelivers(groups: seq<Group>, dev: nat, rooms: seq<nat>)
    requires dev > 0 && Countable(groups) && Listing(groups, 0) == []
    ensures Delivers(groups, dev, rooms)
  {
    ItemsAreListing(groups, dev, 0);
    if rooms != [] {
      var n := |rooms| - 1;
      EmptyDelivers(groups, dev, rooms[..n]);
      var from := SetPos(dev, 0, 0);
      DeviceBack(dev, 0, 0);
      ItemsAreListing(groups, PosDevice(from), 0);
      if |groups| < TWO_31 {
        AheadAll(groups, from);
      } else {
        TooManyGroups(groups, from);
      }
    }
  }

  /** A call without room shows where the listing stands: it fails to say so for a device or a file out of bounds. */
  lemma FirstCallFails(groups: seq<Group>, dev: nat)
    requires dev > 0 && Countable(groups) && Listing(groups, 0) != []
    requires |groups| >= TWO_31 || dev % TWO_16 == 0
    ensures !Delivers(groups, dev, [0])
  {
    ItemsAreListing(groups, dev, 0);
    SignedItem(groups, dev, 0, 0, 0);
    NoRoomCall(groups, dev);
    assert [0][..0] == [];
    assert Session(groups, dev, []) == ([], 0);
    assert Sum([0]) == Sum([]) + 0;
  }

  lemma NoRoomCall(groups: seq<Group>, dev: nat)
    requires dev > 0 && Countable(groups) && Listing(groups, 0) != []
    requires |groups| >= TWO_31 || dev % TWO_16 == 0
    ensures var pos := Iterate(groups, {}, true, dev, 0, 0).1; pos == END || pos < TWO_63
  {
    if |groups| >= TWO_31 {
      TooManyGroups(groups, SetPos(dev, 0, 0));
    } else {
      DeviceBack(dev, 0, 0);
      AheadAll(groups, SetPos(dev, 0, 0));
      ItemsAreListing(groups, 0, 0);
      UnsignedItem(groups, 0, 0, 0);
    }
  }

  /**
   The calls deliver the listing, for every pattern of buffer sizes, if and only if the directory is
   empty, or its file has fewer than 2^31 groups and the device id is no multiple of 2^16.
   More groups are a negative number to the loop, which lists nothing; and for a multiple the
   positions lose the sign bit that tells a resumed call from a new one.
   */
  lemma ResumableIff(groups: seq<Group>, dev: nat)
    requires dev > 0 && Countable(groups)
    ensures (forall rooms :: Delivers(groups, dev, rooms)) <==>
            Listing(groups, 0) == [] || (|groups| < TWO_31 && dev % TWO_16 != 0)
  {
    if Listing(groups, 0) == [] {
      forall rooms ensures Delivers(groups, dev, rooms) {
        EmptyDelivers(groups, dev, rooms);
      }
    } else if |groups| < TWO_31 && dev % TWO_16 != 0 {
      forall rooms ensures Delivers(groups, dev, rooms) {
        SessionDeliversListing(groups, dev, rooms);
      }
    } else {
      FirstCallFails(groups, dev);
    }
  }
}
