/**
 The stash file: a head, the path of the remote file and, behind them, the dirty
 pages at their own offsets; and its replay onto the remote file.
 */
module StashFile {
  import opened Bytes

  const BLK_SIZE: nat := 4096
  const HEAD_MAGIC: nat := 0xF7AB06C3

  // ----- sparse files -----

  /** The bytes of a file and the blocks that hold data; all other bytes are zero. */
  datatype Sparse = Sparse(content: seq<byte>, blocks: set<nat>)

  function Max(a: nat, b: nat): nat {
    if a < b then b else a
  }

  function DivUp(n: nat, d: nat): nat
    requires d > 0
  {
    (n + d - 1) / d
  }

  /** Writing `data` at `pos`, with zeros in a gap behind the old end. */
  function Overlay(base: seq<byte>, pos: nat, data: seq<byte>): seq<byte> {
    seq(Max(|base|, if data == [] then 0 else pos + |data|), x requires 0 <= x =>
      if pos <= x < pos + |data| then data[x - pos] else if x < |base| then base[x] else 0)
  }

  function Blocks(from: nat, upto: nat): (r: set<nat>)
    ensures forall b :: b in r <==> from <= b < upto
    decreases upto - from
  {
    if from >= upto then {} else {from} + Blocks(from + 1, upto)
  }

  function Write(f: Sparse, pos: nat, data: seq<byte>): Sparse {
    Sparse(Overlay(f.content, pos, data),
           f.blocks + Blocks(pos / BLK_SIZE, DivUp(pos + |data|, BLK_SIZE)))
  }

  function Read(f: Sparse, pos: nat, len: nat): seq<byte> {
    if pos >= |f.content| then []
    else if pos + len <= |f.content| then f.content[pos..pos + len]
    else f.content[pos..]
  }

  /** The byte at `p` lies in a block that holds data. */
  predicate IsData(f: Sparse, p: int) {
    0 <= p < |f.content| && p / BLK_SIZE in f.blocks
  }

  /** vfs_llseek with SEEK_DATA: the first data byte from `pos` on, None for -ENXIO. */
  function SeekData(f: Sparse, pos: nat): (r: Option<nat>)
    ensures r.Some? ==> pos <= r.value && IsData(f, r.value) && (r.value > pos ==> r.value % BLK_SIZE == 0)
    ensures forall p :: pos <= p && (r.Some? ==> p < r.value) ==> !IsData(f, p)
    decreases |f.content| - pos
  {
    if pos >= |f.content| then None
    else if pos / BLK_SIZE in f.blocks then Some(pos)
    else
      var next := (pos / BLK_SIZE + 1) * BLK_SIZE;
      assert forall p :: pos <= p < next ==> p / BLK_SIZE == pos / BLK_SIZE;
      SeekData(f, next)
  }

  // ----- replaying -----

  /**
   `out` is `dst` with the data bytes of `src` between `init` and `limit` put at
   their offset behind `init`: every data byte is there, nothing else changed, and
   the file grew no further than the last data byte.
   */
  ghost predicate Merged(src: Sparse, init: nat, limit: nat, dst: seq<byte>, out: seq<byte>) {
    && |out| >= |dst|
    && (forall x :: 0 <= x < |out| ==>
          out[x] == if IsData(src, init + x) && init + x < limit then src.content[init + x]
                    else if x < |dst| then dst[x] else 0)
    && (forall p :: init <= p < limit && IsData(src, p) ==> p - init < |out|)
    && (|out| > |dst| ==> IsData(src, init + |out| - 1) && init + |out| - 1 < limit)
  }

  lemma SkipHole(src: Sparse, init: nat, from: nat, limit: nat, dst: seq<byte>, out: seq<byte>)
    requires Merged(src, init, from, dst, out) && init <= from <= limit
    requires forall p :: from <= p < limit ==> !IsData(src, p)
    ensures Merged(src, init, limit, dst, out)
  {
    forall x | 0 <= x < |out|
      ensures out[x] == if IsData(src, init + x) && init + x < limit then src.content[init + x]
                        else if x < |dst| then dst[x] else 0
    {
    }
  }

  /** Copying one data block extends the merge over that block. */
  lemma CopyBlock(src: Sparse, init: nat, pos: nat, data: seq<byte>, dst: seq<byte>, out: seq<byte>)
    requires Merged(src, init, pos, dst, out) && init <= pos && pos % BLK_SIZE == 0 && IsData(src, pos)
    requires data == Read(src, pos, BLK_SIZE)
    ensures Merged(src, init, pos + |data|, dst, Overlay(out, pos - init, data))
    ensures 0 < |data| && pos + |data| <= |src.content|
    ensures pos + |data| < |src.content| ==> (pos + |data|) % BLK_SIZE == 0
  {
    var out' := Overlay(out, pos - init, data);
    forall p | pos <= p < pos + |data| ensures IsData(src, p) && src.content[p] == data[p - pos] {
      assert p / BLK_SIZE == pos / BLK_SIZE;
    }
    forall x | 0 <= x < |out'|
      ensures out'[x] == if IsData(src, init + x) && init + x < pos + |data| then src.content[init + x]
                         else if x < |dst| then dst[x] else 0
    {
    }
  }

  datatype CopyResult = Copied | Failed

  /** The blocks with data from block `b0` on: one write each */
  function DataFrom(src: Sparse, b0: nat): set<nat> {
    set b | b in src.blocks && b >= b0 && b * BLK_SIZE < |src.content|
  }

  /** A stretch without data holds no such block. */
  lemma SkipCount(src: Sparse, from: nat, upto: nat)
    requires from % BLK_SIZE == 0 && from <= upto && forall p :: from <= p < upto ==> !IsData(src, p)
    ensures upto >= |src.content| ==> DataFrom(src, from / BLK_SIZE) == {}
    ensures upto % BLK_SIZE == 0 ==> DataFrom(src, from / BLK_SIZE) == DataFrom(src, upto / BLK_SIZE)
  {
    forall b | b in DataFrom(src, from / BLK_SIZE) ensures b * BLK_SIZE >= upto {
      assert IsData(src, b * BLK_SIZE);
    }
  }

  lemma CountBlock(src: Sparse, pos: nat)
    requires pos % BLK_SIZE == 0 && IsData(src, pos)
    ensures |DataFrom(src, pos / BLK_SIZE)| == 1 + |DataFrom(src, pos / BLK_SIZE + 1)|
    ensures pos + BLK_SIZE >= |src.content| ==> DataFrom(src, pos / BLK_SIZE + 1) == {}
  {
    var b := pos / BLK_SIZE;
    assert DataFrom(src, b) == {b} + DataFrom(src, b + 1);
  }

  /**
   hmdfs_copy_src_to_dst.  The first `writable` writes to the remote file succeed
   and the next one fails, as when the peer goes offline.
   */
  method CopySrcToDst(src: Sparse, dataOffs: nat, dst: seq<byte>, writable: nat)
    returns (result: CopyResult, out: seq<byte>, ghost reached: nat)
    ensures dataOffs * BLK_SIZE <= reached && Merged(src, dataOffs * BLK_SIZE, reached, dst, out)
    ensures result.Copied? ==> Merged(src, dataOffs * BLK_SIZE, Max(|src.content|, dataOffs * BLK_SIZE), dst, out)
    ensures result.Failed? ==> reached % BLK_SIZE == 0 && IsData(src, reached)
    ensures result.Failed? ==> writable + |DataFrom(src, reached / BLK_SIZE)| == |DataFrom(src, dataOffs)|
    ensures result.Copied? ==> reached >= |src.content|
    ensures result.Failed? <==> writable < |DataFrom(src, dataOffs)|
  {
    var init := dataOffs * BLK_SIZE;
    var seekPos, writes := init, 0;
    var size := |src.content|;
    out, reached := dst, init;
    while true
      invariant init <= seekPos && seekPos % BLK_SIZE == 0
      invariant writes <= writable && writes + |DataFrom(src, seekPos / BLK_SIZE)| == |DataFrom(src, dataOffs)|
      invariant Merged(src, init, seekPos, dst, out)
      decreases size - seekPos
    {
      var dataPos := SeekData(src, seekPos);
      if dataPos.None? {
        NoMoreData(src, init, seekPos, dst, out);
        SkipCount(src, seekPos, Max(size, seekPos));
        return Copied, out, Max(size, init);
      }
      if dataPos.value > seekPos {
        SkipHole(src, init, seekPos, dataPos.value, dst, out);
        SkipCount(src, seekPos, dataPos.value);
        seekPos := dataPos.value;
        continue;
      }
      var data := Read(src, seekPos, BLK_SIZE);
      CountBlock(src, seekPos);
      if writes == writable {
        return Failed, out, seekPos;
      }
      CopyBlock(src, init, seekPos, data, dst, out);
      out := Overlay(out, seekPos - init, data);
      seekPos, writes := seekPos + |data|, writes + 1;
      if seekPos >= size {
        return Copied, out, seekPos;
      }
    }
  }

  lemma NoMoreData(src: Sparse, init: nat, pos: nat, dst: seq<byte>, out: seq<byte>)
    requires init <= pos && Merged(src, init, pos, dst, out) && SeekData(src, pos).None?
    ensures Merged(src, init, Max(|src.content|, init), dst, out)
  {
    var end := Max(|src.content|, init);
    SkipHole(src, init, pos, Max(pos, end), dst, out);
    TrimLimit(src, init, Max(pos, end), end, dst, out);
  }

  /** A limit behind the end of the source is as good as the end. */
  lemma TrimLimit(src: Sparse, init: nat, limit: nat, end: nat, dst: seq<byte>, out: seq<byte>)
    requires Merged(src, init, limit, dst, out) && |src.content| <= end <= limit
    ensures Merged(src, init, end, dst, out)
  {
    forall x | 0 <= x < |out|
      ensures out[x] == if IsData(src, init + x) && init + x < end then src.content[init + x]
                        else if x < |dst| then dst[x] else 0
    {
    }
  }

  // ----- stashing -----

  /** A dirty page: its index in the file and the bytes of it that lie inside the file. */
  datatype Page = Page(index: nat, data: seq<byte>)

  predicate ValidPage(p: Page) {
    0 < |p.data| <= BLK_SIZE
  }

  function PageStart(p: Page): nat {
    p.index * BLK_SIZE
  }

  /** hmdfs_stash_write_local_file */
  function StashPage(f: Sparse, dataOffs: nat, p: Page): Sparse {
    Write(f, PageStart(p) + dataOffs * BLK_SIZE, p.data)
  }

  function StashPages(dataOffs: nat, pages: seq<Page>): Sparse {
    if pages == [] then Sparse([], {})
    else StashPage(StashPages(dataOffs, pages[..|pages| - 1]), dataOffs, pages[|pages| - 1])
  }

  /** What the stashed pages say about the byte at `x`: the latest page that covers it decides. */
  function StashedByte(pages: seq<Page>, x: nat): Option<byte> {
    if pages == [] then None
    else
      var last := pages[|pages| - 1];
      if PageStart(last) <= x < PageStart(last) + |last.data| then Some(last.data[x - PageStart(last)])
      else StashedByte(pages[..|pages| - 1], x)
  }

  predicate Touched(pages: seq<Page>, block: nat) {
    exists k :: 0 <= k < |pages| && pages[k].index == block
  }

  /** The end of the furthest stashed page. */
  function End(pages: seq<Page>): nat {
    if pages == [] then 0
    else Max(End(pages[..|pages| - 1]), PageStart(pages[|pages| - 1]) + |pages[|pages| - 1].data|)
  }

  /** The value that belongs at `x` of a touched block. */
  function PageByte(pages: seq<Page>, x: nat): byte {
    var b := StashedByte(pages, x);
    if b.Some? then b.value else 0
  }

  /** The data part of `f` holds exactly the stashed pages. */
  ghost predicate HoldsPages(f: Sparse, dataOffs: nat, pages: seq<Page>) {
    var init := dataOffs * BLK_SIZE;
    && (pages != [] ==> |f.content| == init + End(pages))
    && (forall b :: b >= dataOffs ==> (b in f.blocks <==> Touched(pages, b - dataOffs)))
    && (forall x :: 0 <= x && init + x < |f.content| ==> f.content[init + x] == PageByte(pages, x))
  }

  lemma {:induction false} EndPositive(pages: seq<Page>)
    requires forall k :: 0 <= k < |pages| ==> ValidPage(pages[k])
    ensures pages != [] ==> End(pages) > 0
  {
    if pages != [] {
      EndPositive(pages[..|pages| - 1]);
    }
  }

  lemma TouchedLast(pages: seq<Page>, block: nat)
    requires pages != []
    ensures Touched(pages, block) <==> Touched(pages[..|pages| - 1], block) || pages[|pages| - 1].index == block
  {
    var n := |pages| - 1;
    if Touched(pages[..n], block) {
      var k :| 0 <= k < n && pages[..n][k].index == block;
      assert pages[k].index == block;
    }
    if Touched(pages, block) && pages[n].index != block {
      var k :| 0 <= k < |pages| && pages[k].index == block;
      assert pages[..n][k].index == block;
    }
  }

  lemma PageBlocks(dataOffs: nat, p: Page)
    requires ValidPage(p)
    ensures var pos := PageStart(p) + dataOffs * BLK_SIZE;
            pos / BLK_SIZE == dataOffs + p.index && DivUp(pos + |p.data|, BLK_SIZE) == dataOffs + p.index + 1
  {
  }

  lemma {:induction false} StashedPagesHeld(dataOffs: nat, pages: seq<Page>)
    requires forall k :: 0 <= k < |pages| ==> ValidPage(pages[k])
    ensures HoldsPages(StashPages(dataOffs, pages), dataOffs, pages)
  {
    var f, init := StashPages(dataOffs, pages), dataOffs * BLK_SIZE;
    if pages != [] {
      var n := |pages| - 1;
      var before, last := StashPages(dataOffs, pages[..n]), pages[n];
      StashedPagesHeld(dataOffs, pages[..n]);
      PageBlocks(dataOffs, last);
      forall b | b >= dataOffs ensures b in f.blocks <==> Touched(pages, b - dataOffs) {
        TouchedLast(pages, b - dataOffs);
      }
      forall x | 0 <= x && init + x < |f.content| ensures f.content[init + x] == PageByte(pages, x) {
        PageByteStep(before, dataOffs, pages, x);
      }
    }
  }

  lemma PageByteStep(before: Sparse, dataOffs: nat, pages: seq<Page>, x: nat)
    requires pages != []
    requires var n := |pages| - 1;
             && (n > 0 ==> |before.content| == dataOffs * BLK_SIZE + End(pages[..n]))
             && (n == 0 ==> before.content == [])
             && (dataOffs * BLK_SIZE + x < |before.content| ==>
                   before.content[dataOffs * BLK_SIZE + x] == PageByte(pages[..n], x))
    ensures var f := StashPage(before, dataOffs, pages[|pages| - 1]);
            dataOffs * BLK_SIZE + x < |f.content| ==> f.content[dataOffs * BLK_SIZE + x] == PageByte(pages, x)
  {
    var n := |pages| - 1;
    var last := pages[n];
    if dataOffs * BLK_SIZE + x >= |before.content| {
      assert n == 0 ==> pages[..n] == [];
      BeyondEnd(pages[..n], x);
    }
    assert PageByte(pages, x) ==
           if PageStart(last) <= x < PageStart(last) + |last.data| then last.data[x - PageStart(last)]
           else PageByte(pages[..n], x);
  }

  lemma {:induction false} BeyondEnd(pages: seq<Page>, x: nat)
    requires x >= End(pages)
    ensures StashedByte(pages, x).None?
  {
    if pages != [] {
      BeyondEnd(pages[..|pages| - 1], x);
    }
  }

  // ----- head and path -----

  datatype Head = Head(magic: nat, crcOffset: nat, ino: nat, size: nat, blocks: nat,
                       pathOffs: nat, pathLen: nat, pathCnt: nat, dataOffs: nat)

  const HEAD_SIZE: nat := 84
  const CRC_OFFSET: nat := 80

  function HeadFront(h: Head): (s: seq<byte>)
    ensures |s| == 32
  {
    Encode(h.magic, 4) + Encode(h.crcOffset, 4) + Encode(h.ino, 8) + Encode(h.size, 8) + Encode(h.blocks, 8)
  }

  function HeadTail(h: Head): (s: seq<byte>)
    ensures |s| == 16
  {
    Encode(h.pathOffs, 4) + Encode(h.pathLen, 4) + Encode(h.pathCnt, 4) + Encode(h.dataOffs, 4)
  }

  /** The packed head up to its checksum; the fields in between are left zero by stashing. */
  function HeadBody(h: Head): (s: seq<byte>)
    ensures |s| == CRC_OFFSET
  {
    HeadFront(h) + seq(32, _ => 0 as byte) + HeadTail(h)
  }

  function Field(s: seq<byte>, at: nat, len: nat): nat
    requires at + len <= |s|
  {
    Decode(s[at..at + len])
  }

  function ParseHead(s: seq<byte>): Head
    requires |s| >= CRC_OFFSET
  {
    Head(Field(s, 0, 4), Field(s, 4, 4), Field(s, 8, 8), Field(s, 16, 8), Field(s, 24, 8),
         Field(s, 64, 4), Field(s, 68, 4), Field(s, 72, 4), Field(s, 76, 4))
  }

  predicate HeadFits(h: Head) {
    && h.magic < TWO_32 && h.crcOffset < TWO_32 && h.ino < TWO_64 && h.size < TWO_64 && h.blocks < TWO_64
    && h.pathOffs < TWO_32 && h.pathLen < TWO_32 && h.pathCnt < TWO_32 && h.dataOffs < TWO_32
  }

  /** hmdfs_set_stash_file_head */
  function MakeHead(f: Sparse, ino: nat, writtenPages: nat, pathOffs: nat, pathLen: nat, dataOffs: nat): Head {
    Head(HEAD_MAGIC, CRC_OFFSET, ino, |f.content|, writtenPages * 8, pathOffs, pathLen, 1, dataOffs)
  }

  function HeadBytes(crc: seq<byte> -> nat, h: Head): seq<byte> {
    HeadBody(h) + Encode(crc(HeadBody(h)) % TWO_32, 4)
  }

  lemma ParseHeadFront(h: Head)
    requires HeadFits(h)
    ensures var s := HeadFront(h);
            && Field(s, 0, 4) == h.magic && Field(s, 4, 4) == h.crcOffset && Field(s, 8, 8) == h.ino
            && Field(s, 16, 8) == h.size && Field(s, 24, 8) == h.blocks
  {
    Pow256Values();
    var s := HeadFront(h);
    var a, b, c := Encode(h.magic, 4), Encode(h.crcOffset, 4), Encode(h.ino, 8);
    assert s[..16] == a + b + c;
    assert s[0..4] == s[..16][0..4] == a;
    assert s[4..8] == s[..16][4..8] == b;
    assert s[8..16] == s[..16][8..16] == c;
    assert s[16..24] == Encode(h.size, 8);
    assert s[24..32] == Encode(h.blocks, 8);
    DecodeEncode(h.magic, 4);
    DecodeEncode(h.crcOffset, 4);
    DecodeEncode(h.ino, 8);
    DecodeEncode(h.size, 8);
    DecodeEncode(h.blocks, 8);
  }

  lemma ParseHeadTail(h: Head)
    requires HeadFits(h)
    ensures var s := HeadTail(h);
            && Field(s, 0, 4) == h.pathOffs && Field(s, 4, 4) == h.pathLen && Field(s, 8, 4) == h.pathCnt
            && Field(s, 12, 4) == h.dataOffs
  {
    Pow256Values();
    var s := HeadTail(h);
    var a, b := Encode(h.pathOffs, 4) + Encode(h.pathLen, 4), Encode(h.pathCnt, 4) + Encode(h.dataOffs, 4);
    assert s == a + b;
    assert s[0..4] == a[0..4] == Encode(h.pathOffs, 4) && s[4..8] == a[4..8] == Encode(h.pathLen, 4);
    assert s[8..12] == b[0..4] == Encode(h.pathCnt, 4) && s[12..16] == b[4..8] == Encode(h.dataOffs, 4);
    DecodeEncode(h.pathOffs, 4);
    DecodeEncode(h.pathLen, 4);
    DecodeEncode(h.pathCnt, 4);
    DecodeEncode(h.dataOffs, 4);
  }

  lemma FieldShift(s: seq<byte>, t: seq<byte>, shift: nat, at: nat, len: nat)
    requires shift + |t| <= |s| && s[shift..shift + |t|] == t && at + len <= |t|
    ensures Field(s, shift + at, len) == Field(t, at, len)
  {
    var x, y := s[shift + at..shift + at + len], t[at..at + len];
    forall k | 0 <= k < len ensures x[k] == y[k] {
      assert s[shift..shift + |t|][at + k] == s[shift + at + k];
    }
    assert x == y;
  }

  /** Reading back a written head yields its fields. */
  lemma ParseHeadBody(h: Head, rest: seq<byte>)
    requires HeadFits(h)
    ensures ParseHead(HeadBody(h) + rest) == h
  {
    var s, front, tail := HeadBody(h) + rest, HeadFront(h), HeadTail(h);
    ParseHeadFront(h);
    ParseHeadTail(h);
    assert s[0..0 + |front|] == front && s[64..64 + |tail|] == tail;
    FieldShift(s, front, 0, 0, 4);
    FieldShift(s, front, 0, 4, 4);
    FieldShift(s, front, 0, 8, 8);
    FieldShift(s, front, 0, 16, 8);
    FieldShift(s, front, 0, 24, 8);
    FieldShift(s, tail, 64, 0, 4);
    FieldShift(s, tail, 64, 4, 4);
    FieldShift(s, tail, 64, 8, 4);
    FieldShift(s, tail, 64, 12, 4);
  }

  /** The block where the data begins: behind the head and the path. */
  function DataOffs(path: seq<byte>): nat {
    DivUp(HEAD_SIZE, BLK_SIZE) + DivUp(|path| + 1, BLK_SIZE)
  }

  /** The stash file once head and path are written. */
  function WithMetadata(crc: seq<byte> -> nat, f: Sparse, ino: nat, writtenPages: nat, path: seq<byte>): Sparse {
    var pathOffs := DivUp(HEAD_SIZE, BLK_SIZE);
    var head := MakeHead(f, ino, writtenPages, pathOffs, |path| + 1, DataOffs(path));
    Write(Write(f, 0, HeadBytes(crc, head)), pathOffs * BLK_SIZE, path + [0])
  }

  /** What flushing ends with: pages lost for want of a path, or the file as it then is */
  datatype Flush = Lost | Flushed(f: Sparse)

  /**
   hmdfs_flush_stash_file_metadata after `written` pages.  The path is empty when the inode had no
   dentry any more; then nothing is written, which is an error unless there is nothing to keep.
   */
  function FlushMetadata(crc: seq<byte> -> nat, f: Sparse, ino: nat, written: nat, path: seq<byte>): Flush {
    if path != [] then Flushed(WithMetadata(crc, f, ino, written, path))
    else if written == 0 then Flushed(f)
    else Lost
  }

  datatype Restored = Bad | Good(path: seq<byte>, pages: nat, dataOffs: nat)

  /** strnlen */
  function StringLength(s: seq<byte>): (n: nat)
    ensures n <= |s| && (n < |s| ==> s[n] == 0) && forall k :: 0 <= k < n ==> s[k] != 0
  {
    if s == [] || s[0] == 0 then 0 else 1 + StringLength(s[1..])
  }

  /** hmdfs_verify_restore_file_head */
  predicate HeadVerified(crc: seq<byte> -> nat, f: Sparse, raw: seq<byte>, ino: nat)
    requires |raw| >= CRC_OFFSET
  {
    var h := ParseHead(raw);
    && h.magic == HEAD_MAGIC
    && h.crcOffset + 4 <= |raw|
    && Field(raw, h.crcOffset, 4) == crc(raw[..h.crcOffset]) % TWO_32
    && h.ino == ino
    && 0 < h.pathOffs * BLK_SIZE < |f.content|
    && h.pathOffs < h.dataOffs
    && 0 < h.dataOffs * BLK_SIZE < |f.content|
    && h.size == |f.content|
    && h.pathCnt >= 1
  }

  /** hmdfs_get_restore_file_metadata */
  function RestoreMetadata(crc: seq<byte> -> nat, f: Sparse, ino: nat): Restored {
    var part := Read(f, 0, 8);
    if |part| != 8 then Bad
    else
      var crcOffset := Field(part, 4, 4);
      if crcOffset + 4 > HEAD_SIZE then Bad
      else
        var full := Read(f, 0, crcOffset + 4);
        if |full| != crcOffset + 4 then Bad
        else
          var raw := full + seq(HEAD_SIZE - |full|, _ => 0 as byte);
          if !HeadVerified(crc, f, raw, ino) then Bad
          else
            var h := ParseHead(raw);
            var readSize := if h.pathLen < PATH_MAX then h.pathLen else PATH_MAX;
            var path := Read(f, h.pathOffs * BLK_SIZE, readSize);
            if |path| != readSize || StringLength(path) >= readSize then Bad
            else Good(path[..StringLength(path)], h.blocks / 8, h.dataOffs)
  }

  /** A path as dentry_path_raw builds it, or the empty one: no NUL, and room for one behind it. */
  predicate ValidPath(path: seq<byte>) {
    |path| < PATH_MAX && forall k :: 0 <= k < |path| ==> path[k] != 0
  }

  /** What the writes of head and path leave in the file, byte by byte. */
  lemma MetadataBytes(crc: seq<byte> -> nat, f: Sparse, ino: nat, writtenPages: nat, path: seq<byte>)
    requires ValidPath(path) && |f.content| > DataOffs(path) * BLK_SIZE
    ensures DataOffs(path) == 2
    ensures var g := WithMetadata(crc, f, ino, writtenPages, path);
            var raw := HeadBytes(crc, MakeHead(f, ino, writtenPages, 1, |path| + 1, 2));
            && |raw| == HEAD_SIZE
            && |g.content| == |f.content|
            && g.content[..HEAD_SIZE] == raw
            && g.content[BLK_SIZE..BLK_SIZE + |path| + 1] == path + [0]
            && (forall p :: 2 * BLK_SIZE <= p < |f.content| ==> g.content[p] == f.content[p])
            && (forall b :: b >= 2 ==> (b in g.blocks <==> b in f.blocks))
  {
    var raw := HeadBytes(crc, MakeHead(f, ino, writtenPages, 1, |path| + 1, 2));
    var h := Write(f, 0, raw);
    WriteInside(f, 0, raw);
    WriteInside(h, BLK_SIZE, path + [0]);
    var g := Write(h, BLK_SIZE, path + [0]);
    assert g.content[..HEAD_SIZE] == h.content[..HEAD_SIZE] == h.content[0..0 + |raw|];
  }

  lemma WriteInside(f: Sparse, pos: nat, data: seq<byte>)
    requires data != [] && pos + |data| <= |f.content|
    ensures var g := Write(f, pos, data);
            && |g.content| == |f.content| && g.content[pos..pos + |data|] == data
            && (forall p :: 0 <= p < |f.content| && !(pos <= p < pos + |data|) ==> g.content[p] == f.content[p])
            && (forall b :: b in g.blocks <==> b in f.blocks || pos / BLK_SIZE <= b < DivUp(pos + |data|, BLK_SIZE))
  {
  }

  lemma MetadataKeepsPages(crc: seq<byte> -> nat, f: Sparse, ino: nat, path: seq<byte>, pages: seq<Page>)
    requires ValidPath(path) && pages != [] && forall k :: 0 <= k < |pages| ==> ValidPage(pages[k])
    requires HoldsPages(f, DataOffs(path), pages)
    ensures HoldsPages(WithMetadata(crc, f, ino, |pages|, path), DataOffs(path), pages)
    ensures |f.content| > DataOffs(path) * BLK_SIZE
  {
    EndPositive(pages);
    MetadataBytes(crc, f, ino, |pages|, path);
    var g := WithMetadata(crc, f, ino, |pages|, path);
    forall x | 0 <= x && 2 * BLK_SIZE + x < |g.content| ensures g.content[2 * BLK_SIZE + x] == PageByte(pages, x) {
      assert f.content[2 * BLK_SIZE + x] == PageByte(pages, x);
    }
  }

  lemma StringEnds(path: seq<byte>)
    requires forall k :: 0 <= k < |path| ==> path[k] != 0
    ensures StringLength(path + [0]) == |path| && (path + [0])[..|path|] == path
  {
    var s := path + [0];
    assert s[|path|] == 0;
    assert forall k :: 0 <= k < |path| ==> s[k] == path[k];
    assert StringLength(s) <= |path|;
  }

  lemma HeadReadBack(crc: seq<byte> -> nat, f: Sparse, ino: nat, written: nat, path: seq<byte>)
    requires ValidPath(path) && |f.content| > DataOffs(path) * BLK_SIZE
    requires ino < TWO_64 && |f.content| < TWO_64 && written * 8 < TWO_64
    ensures RestoreMetadata(crc, WithMetadata(crc, f, ino, written, path), ino) == Good(path, written, DataOffs(path))
  {
    var h := MakeHead(f, ino, written, 1, |path| + 1, 2);
    MetadataBytes(crc, f, ino, written, path);
    HeadAccepted(crc, h);
    ReadBack(crc, WithMetadata(crc, f, ino, written, path), HeadBytes(crc, h), h, path);
  }

  /**
   Pages are lost in flushing if and only if there is no path; otherwise the head that stashing
   writes is accepted when the file is restored, and names the path and the pages.
   */
  lemma MetadataReadBack(crc: seq<byte> -> nat, f: Sparse, ino: nat, written: nat, path: seq<byte>)
    requires ValidPath(path) && written > 0 && |f.content| > DataOffs(path) * BLK_SIZE
    requires ino < TWO_64 && |f.content| < TWO_64 && written * 8 < TWO_64
    ensures var r := FlushMetadata(crc, f, ino, written, path);
            && (r.Lost? <==> path == [])
            && (r.Flushed? ==> RestoreMetadata(crc, r.f, ino) == Good(path, written, DataOffs(path)))
  {
    HeadReadBack(crc, f, ino, written, path);
  }

  /** The head as the first bytes of a file, with its checksum at the end of it */
  predicate HasHead(f: Sparse) {
    |f.content| >= HEAD_SIZE && Field(f.content, 4, 4) == CRC_OFFSET
  }

  /**
   What an accepted head vouches for: the magic number, the inode asked for, the size of the file, and
   the checksum over everything before it.  A head of another inode, or one that the checksum function
   tells from what was written, is refused.
   */
  lemma AcceptedHead(crc: seq<byte> -> nat, f: Sparse, ino: nat)
    requires HasHead(f) && RestoreMetadata(crc, f, ino).Good?
    ensures Field(f.content, 0, 4) == HEAD_MAGIC && Field(f.content, 8, 8) == ino
    ensures Field(f.content, 16, 8) == |f.content|
    ensures Field(f.content, CRC_OFFSET, 4) == crc(f.content[..CRC_OFFSET]) % TWO_32
  {
    var raw := f.content[..HEAD_SIZE];
    assert Read(f, 0, 8) == f.content[..8];
    assert f.content[..8][4..8] == f.content[4..8];
    assert Read(f, 0, CRC_OFFSET + 4) == raw;
    assert raw + seq(0, _ => 0 as byte) == raw;
    assert raw[..CRC_OFFSET] == f.content[..CRC_OFFSET];
    assert raw[0..4] == f.content[0..4] && raw[8..16] == f.content[8..16] && raw[16..24] == f.content[16..24];
    assert raw[CRC_OFFSET..CRC_OFFSET + 4] == f.content[CRC_OFFSET..CRC_OFFSET + 4];
  }

  /** The head of one inode is not taken for that of another. */
  lemma OtherInodeRefused(crc: seq<byte> -> nat, f: Sparse, ino: nat, other: nat, written: nat, path: seq<byte>)
    requires ValidPath(path) && |f.content| > DataOffs(path) * BLK_SIZE && other != ino
    requires ino < TWO_64 && |f.content| < TWO_64 && written * 8 < TWO_64
    ensures RestoreMetadata(crc, WithMetadata(crc, f, ino, written, path), other).Bad?
  {
    var g := WithMetadata(crc, f, ino, written, path);
    HeadReadBack(crc, f, ino, written, path);
    MetadataBytes(crc, f, ino, written, path);
    HeadAccepted(crc, MakeHead(f, ino, written, 1, |path| + 1, 2));
    assert g.content[..HEAD_SIZE][4..8] == g.content[4..8];
    AcceptedHead(crc, g, ino);
    if RestoreMetadata(crc, g, other).Good? {
      AcceptedHead(crc, g, other);
    }
  }

  lemma ReadBack(crc: seq<byte> -> nat, g: Sparse, raw: seq<byte>, h: Head, path: seq<byte>)
    requires ValidPath(path) && 2 * BLK_SIZE < |g.content|
    requires h == Head(HEAD_MAGIC, CRC_OFFSET, h.ino, |g.content|, h.blocks, 1, |path| + 1, 1, 2)
    requires |raw| == HEAD_SIZE && ParseHead(raw) == h && Field(raw, 4, 4) == CRC_OFFSET
    requires Field(raw, CRC_OFFSET, 4) == crc(raw[..CRC_OFFSET]) % TWO_32
    requires g.content[..HEAD_SIZE] == raw
    requires g.content[BLK_SIZE..BLK_SIZE + |path| + 1] == path + [0]
    ensures RestoreMetadata(crc, g, h.ino) == Good(path, h.blocks / 8, 2)
  {
    assert Read(g, 0, 8) == raw[..8];
    assert raw[..8][4..8] == raw[4..8];
    assert Read(g, 0, CRC_OFFSET + 4) == raw;
    assert raw + seq(0, _ => 0 as byte) == raw;
    assert Read(g, BLK_SIZE, |path| + 1) == path + [0];
    StringEnds(path);
  }

  lemma HeadAccepted(crc: seq<byte> -> nat, h: Head)
    requires HeadFits(h)
    ensures var raw := HeadBytes(crc, h);
            && |raw| == HEAD_SIZE && ParseHead(raw) == h && Field(raw, 4, 4) == h.crcOffset
            && Field(raw, CRC_OFFSET, 4) == crc(raw[..CRC_OFFSET]) % TWO_32
  {
    var raw := HeadBytes(crc, h);
    var sum := crc(HeadBody(h)) % TWO_32;
    ParseHeadBody(h, Encode(sum, 4));
    assert raw[..CRC_OFFSET] == HeadBody(h);
    assert raw[CRC_OFFSET..CRC_OFFSET + 4] == Encode(sum, 4);
    Pow256Values();
    DecodeEncode(sum, 4);
  }

  lemma {:induction false} EndTouched(pages: seq<Page>)
    requires pages != [] && forall k :: 0 <= k < |pages| ==> ValidPage(pages[k])
    ensures End(pages) > 0 && Touched(pages, (End(pages) - 1) / BLK_SIZE)
  {
    var n := |pages| - 1;
    EndPositive(pages);
    TouchedLast(pages, (End(pages) - 1) / BLK_SIZE);
    if End(pages) == End(pages[..n]) && n > 0 {
      EndTouched(pages[..n]);
    } else {
      assert n == 0 ==> pages[..n] == [];
      assert End(pages) == PageStart(pages[n]) + |pages[n].data|;
      assert (End(pages) - 1) / BLK_SIZE == pages[n].index;
    }
  }

  /**
   `out` is `dst` with every block of a stashed page replaced by the page's latest bytes, and nothing
   else changed.
   */
  ghost predicate Replayed(pages: seq<Page>, dst: seq<byte>, out: seq<byte>) {
    && |out| == Max(|dst|, End(pages))
    && forall x :: 0 <= x < |out| ==>
         out[x] == if x < End(pages) && Touched(pages, x / BLK_SIZE) then PageByte(pages, x)
                   else if x < |dst| then dst[x] else 0
  }

  /** The outcome of stashing pages, one after the other, and flushing */
  function Stashed(crc: seq<byte> -> nat, ino: nat, path: seq<byte>, pages: seq<Page>): Flush {
    FlushMetadata(crc, StashPages(DataOffs(path), pages), ino, |pages|, path)
  }

  /** Sizes that fit the fields of the head */
  predicate Storable(ino: nat, path: seq<byte>, pages: seq<Page>) {
    && ValidPath(path) && (forall k :: 0 <= k < |pages| ==> ValidPage(pages[k]))
    && ino < TWO_64 && |pages| * 8 < TWO_64 && DataOffs(path) * BLK_SIZE + End(pages) < TWO_64
  }

  /**
   End to end: stash any pages, in any order and any number of times, flush the
   metadata, and restore.  Without a path everything is lost; with one the head is accepted and
   names the path and the page count, and copying to any remote file leaves every stashed page
   at its own offset, with the bytes of its latest version, and every other byte alone.
   */
  lemma StashRoundTrip(crc: seq<byte> -> nat, ino: nat, path: seq<byte>, pages: seq<Page>, dst: seq<byte>,
                       out: seq<byte>)
    requires Storable(ino, path, pages) && pages != []
    ensures var r := Stashed(crc, ino, path, pages);
            && (r.Lost? <==> path == [])
            && (r.Flushed? ==> RestoreMetadata(crc, r.f, ino) == Good(path, |pages|, DataOffs(path)))
            && (r.Flushed? && Merged(r.f, DataOffs(path) * BLK_SIZE, |r.f.content|, dst, out) ==>
                 Replayed(pages, dst, out))
  {
    if path != [] {
      var f := StashPages(DataOffs(path), pages);
      var g := WithMetadata(crc, f, ino, |pages|, path);
      StashedPagesHeld(DataOffs(path), pages);
      MetadataKeepsPages(crc, f, ino, path, pages);
      MetadataReadBack(crc, f, ino, |pages|, path);
      if Merged(g, DataOffs(path) * BLK_SIZE, |g.content|, dst, out) {
        StashThenRestore(path, pages, g, dst, out);
      }
    }
  }

  lemma StashedSize(crc: seq<byte> -> nat, ino: nat, path: seq<byte>, pages: seq<Page>)
    requires Storable(ino, path, pages) && pages != [] && path != []
    ensures var g := Stashed(crc, ino, path, pages).f;
            && |g.content| == DataOffs(path) * BLK_SIZE + End(pages) > DataOffs(path) * BLK_SIZE
            && |DataFrom(g, DataOffs(path))| == |PageIndices(pages)| && HoldsPages(g, DataOffs(path), pages)
  {
    var f := StashPages(DataOffs(path), pages);
    StashedPagesHeld(DataOffs(path), pages);
    MetadataKeepsPages(crc, f, ino, path, pages);
    EndPositive(pages);
    HeldCount(WithMetadata(crc, f, ino, |pages|, path), DataOffs(path), pages, DataOffs(path));
  }

  lemma HeldCount(g: Sparse, offs: nat, pages: seq<Page>, from: nat)
    requires pages != [] && (forall k :: 0 <= k < |pages| ==> ValidPage(pages[k])) && HoldsPages(g, offs, pages)
    requires from == offs + 0
    ensures |DataFrom(g, from)| == |PageIndices(pages)|
  {
    OneWriteEach(g, offs, pages, 0);
    AllPages(pages);
  }

  lemma AllPages(pages: seq<Page>)
    ensures PagesFrom(pages, 0) == PageIndices(pages)
  {
    forall p: nat ensures p in PagesFrom(pages, 0) <==> p in PageIndices(pages) {
    }
  }

  /** The pages stashed, each once */
  function PageIndices(pages: seq<Page>): set<nat> {
    set k | 0 <= k < |pages| :: pages[k].index
  }

  lemma {:induction false} PageBeforeEnd(pages: seq<Page>, k: nat)
    requires k < |pages| && forall i :: 0 <= i < |pages| ==> ValidPage(pages[i])
    ensures PageStart(pages[k]) < End(pages)
  {
    if k < |pages| - 1 {
      PageBeforeEnd(pages[..|pages| - 1], k);
    }
  }

  function Shifted(s: set<nat>, d: nat): set<nat> {
    set x | x in s :: x + d
  }

  lemma {:induction false} ShiftedSize(s: set<nat>, d: nat)
    ensures |Shifted(s, d)| == |s|
  {
    if s != {} {
      var x :| x in s;
      ShiftedSize(s - {x}, d);
      forall z ensures z in Shifted(s, d) <==> z in Shifted(s - {x}, d) + {x + d} {
        if z in Shifted(s, d) {
          var y :| y in s && z == y + d;
          assert y == x || y in s - {x};
        }
      }
      assert Shifted(s, d) == Shifted(s - {x}, d) + {x + d};
    }
  }

  /** The pages from index `n` on */
  function PagesFrom(pages: seq<Page>, n: nat): set<nat> {
    set p | p in PageIndices(pages) && p >= n
  }

  lemma OneWriteEach(g: Sparse, offs: nat, pages: seq<Page>, n: nat)
    requires pages != [] && (forall k :: 0 <= k < |pages| ==> ValidPage(pages[k])) && HoldsPages(g, offs, pages)
    ensures |DataFrom(g, offs + n)| == |PagesFrom(pages, n)|
  {
    var shifted := Shifted(PagesFrom(pages, n), offs);
    forall b ensures b in DataFrom(g, offs + n) <==> b in shifted {
      if b in shifted {
        var x :| x in PagesFrom(pages, n) && b == x + offs;
        var k :| 0 <= k < |pages| && pages[k].index == x;
        PageBeforeEnd(pages, k);
        assert Touched(pages, b - offs);
      }
      if b in DataFrom(g, offs + n) {
        var k :| 0 <= k < |pages| && pages[k].index == b - offs;
        assert pages[k].index in PagesFrom(pages, n);
      }
    }
    assert DataFrom(g, offs + n) == shifted;
    ShiftedSize(PagesFrom(pages, n), offs);
  }

  /**
   `out` is `dst` with the stashed pages below index `n` in place, each with its latest bytes, and
   nothing else changed.
   */
  ghost predicate ReplayedBelow(pages: seq<Page>, dst: seq<byte>, out: seq<byte>, n: nat) {
    && |dst| <= |out| <= Max(|dst|, End(pages))
    && (forall p :: p in PageIndices(pages) && p < n ==> p * BLK_SIZE < |out|)
    && forall x :: 0 <= x < |out| ==>
         out[x] == if x / BLK_SIZE < n && x < End(pages) && Touched(pages, x / BLK_SIZE) then PageByte(pages, x)
                   else if x < |dst| then dst[x] else 0
  }

  /** A copy that stopped at a block has replayed the pages before it. */
  lemma StoppedCopy(g: Sparse, offs: nat, pages: seq<Page>, dst: seq<byte>, out: seq<byte>, n: nat)
    requires pages != [] && (forall k :: 0 <= k < |pages| ==> ValidPage(pages[k])) && HoldsPages(g, offs, pages)
    requires Merged(g, offs * BLK_SIZE, (offs + n) * BLK_SIZE, dst, out)
    ensures ReplayedBelow(pages, dst, out, n)
  {
    var init := offs * BLK_SIZE;
    forall x | 0 <= x ensures IsData(g, init + x) <==> x < End(pages) && Touched(pages, x / BLK_SIZE) {
      assert (init + x) / BLK_SIZE == offs + x / BLK_SIZE;
      assert offs + x / BLK_SIZE >= offs;
    }
    forall x | 0 <= x < |out|
      ensures out[x] == if x / BLK_SIZE < n && x < End(pages) && Touched(pages, x / BLK_SIZE) then PageByte(pages, x)
                        else if x < |dst| then dst[x] else 0
    {
      assert IsData(g, init + x) <==> x < End(pages) && Touched(pages, x / BLK_SIZE);
    }
    forall p | p in PageIndices(pages) && p < n ensures p * BLK_SIZE < |out| {
      var k :| 0 <= k < |pages| && pages[k].index == p;
      PageBeforeEnd(pages, k);
      assert Touched(pages, (p * BLK_SIZE) / BLK_SIZE);
      assert IsData(g, init + p * BLK_SIZE);
    }
    if |out| > |dst| {
      assert IsData(g, init + (|out| - 1));
    }
  }

  lemma StashThenRestore(path: seq<byte>, pages: seq<Page>, g: Sparse, dst: seq<byte>, out: seq<byte>)
    requires ValidPath(path) && pages != [] && forall k :: 0 <= k < |pages| ==> ValidPage(pages[k])
    requires HoldsPages(g, DataOffs(path), pages)
    requires Merged(g, DataOffs(path) * BLK_SIZE, |g.content|, dst, out)
    ensures Replayed(pages, dst, out)
  {
    var offs := DataOffs(path);
    var init := offs * BLK_SIZE;
    EndTouched(pages);
    forall x | 0 <= x ensures IsData(g, init + x) <==> x < End(pages) && Touched(pages, x / BLK_SIZE) {
      assert (init + x) / BLK_SIZE == offs + x / BLK_SIZE;
      assert offs + x / BLK_SIZE >= offs;
    }
    assert IsData(g, init + (End(pages) - 1));
    forall x | 0 <= x < |out|
      ensures out[x] == if x < End(pages) && Touched(pages, x / BLK_SIZE) then PageByte(pages, x)
                        else if x < |dst| then dst[x] else 0
    {
      assert IsData(g, init + x) <==> x < End(pages) && Touched(pages, x / BLK_SIZE);
    }
  }
}
