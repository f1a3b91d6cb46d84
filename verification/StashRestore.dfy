/**
 Restoring stash files after a peer came back: when a file counts as restored, when its stash
 file is kept for the next time, and when it is deleted.
 */
module StashRestore {
  import opened Bytes
  import opened StashFile

  /** Fine is 0, Shutdown is -ESHUTDOWN: the peer went offline again. */
  datatype Errno = Fine | Shutdown | Failure

  /** The inode found for the stash file's number */
  datatype Pinned = NoInode | WrongStatus | Restoring

  /**
   What one restore meets: the inode, whether the remote file opens and whether it then is another
   inode than the pinned one, how many writes succeed, whether the final fsync does, and whether
   the peer is offline when an error is looked into.
   */
  datatype World = World(pinned: Pinned, dstOpens: bool, foreign: bool, writable: nat, synced: bool, offline: bool)

  /** Everything up to the replay is in order. */
  predicate Reaches(crc: seq<byte> -> nat, g: Sparse, ino: nat, w: World) {
    w.pinned.Restoring? && RestoreMetadata(crc, g, ino).Good? && w.dstOpens
  }

  /** All data blocks can be written, and synced. */
  predicate Writes(crc: seq<byte> -> nat, g: Sparse, ino: nat, w: World) {
    var m := RestoreMetadata(crc, g, ino);
    m.Good? && w.writable >= |DataFrom(g, m.dataOffs)| && w.synced
  }

  /** `out` is the destination with all the data of the stash file at its place. */
  ghost predicate FullyRestored(crc: seq<byte> -> nat, g: Sparse, ino: nat, dst: seq<byte>, out: seq<byte>) {
    var m := RestoreMetadata(crc, g, ino);
    m.Good? && Merged(g, m.dataOffs * BLK_SIZE, Max(|g.content|, m.dataOffs * BLK_SIZE), dst, out)
  }

  /**
   `out` is the destination with the data replayed up to some point: everything, or exactly as many
   blocks as could be written.
   */
  ghost predicate ReplayedSome(g: Sparse, offs: nat, dst: seq<byte>, out: seq<byte>, writable: nat) {
    exists reached ::
      && offs * BLK_SIZE <= reached && Merged(g, offs * BLK_SIZE, reached, dst, out)
      && if writable >= |DataFrom(g, offs)| then reached >= |g.content|
         else reached % BLK_SIZE == 0 && writable + |DataFrom(g, reached / BLK_SIZE)| == |DataFrom(g, offs)|
  }

  /**
   hmdfs_restore_file.  It reports success if and only if it got as far as the replay and either
   gave up because the remote file is another inode, or wrote and synced everything; the
   stash file is kept if and only if the peer went offline under it.
   */
  method RestoreFile(crc: seq<byte> -> nat, g: Sparse, ino: nat, dst: seq<byte>, w: World)
    returns (err: Errno, keep: bool, reset: bool, out: seq<byte>)
    ensures err.Fine? <==> Reaches(crc, g, ino, w) && (w.foreign || Writes(crc, g, ino, w))
    ensures keep <==> err.Shutdown?
    ensures err.Shutdown? <==> && w.offline && w.pinned.Restoring? && RestoreMetadata(crc, g, ino).Good?
                               && (!w.dstOpens || (!w.foreign && !Writes(crc, g, ino, w)))
    ensures reset <==> !w.pinned.NoInode? && !keep
    ensures err.Fine? && !w.foreign ==> FullyRestored(crc, g, ino, dst, out)
    ensures Reaches(crc, g, ino, w) && !w.foreign ==>
              ReplayedSome(g, RestoreMetadata(crc, g, ino).dataOffs, dst, out, w.writable)
    ensures out != dst ==> Reaches(crc, g, ino, w) && !w.foreign
  {
    err, keep, reset, out := Fine, false, false, dst;
    if w.pinned.Restoring? {
      var m := RestoreMetadata(crc, g, ino);
      if m.Bad? {
        err := Failure;
      } else if !w.dstOpens {
        err := if w.offline then Shutdown else Failure;
        keep := w.offline;
      } else if !w.foreign {
        var result;
        ghost var reached;
        result, out, reached := CopySrcToDst(g, m.dataOffs, dst, w.writable);
        if result.Failed? || !w.synced {
          err := if w.offline then Shutdown else Failure;
        }
        keep := err.Shutdown?;
      }
    } else {
      err := Failure;
    }
    reset := !w.pinned.NoInode? && !keep;
  }

  /**
   The whole life of a stash file: the pages are written one by one, head and path follow, and when the
   peer is back the file is restored; without a path, or with nothing stashed, there is no stash file.
   */
  method StashAndRestore(crc: seq<byte> -> nat, ino: nat, path: seq<byte>, pages: seq<Page>, dst: seq<byte>, w: World)
    returns (err: Errno, out: seq<byte>)
    requires Storable(ino, path, pages)
    ensures pages == [] ==> err.Fine? && out == dst
    ensures pages != [] ==> (err.Fine? <==> && path != [] && w.pinned.Restoring? && w.dstOpens
                                            && (w.foreign || (w.writable >= |PageIndices(pages)| && w.synced)))
    ensures err.Fine? && !w.foreign ==> Replayed(pages, dst, out)
    ensures path == [] || w.foreign || !w.pinned.Restoring? || !w.dstOpens ==> out == dst
    ensures pages != [] && path != [] && w.pinned.Restoring? && w.dstOpens && !w.foreign ==>
              exists n :: ReplayedBelow(pages, dst, out, n) && OnlyWritten(pages, n, w.writable)
  {
    var offs := DataOffs(path);
    var f := Sparse([], {});
    for i := 0 to |pages|
      invariant f == StashPages(offs, pages[..i])
    {
      assert pages[..i + 1][..i] == pages[..i];
      f := StashPage(f, offs, pages[i]);
    }
    assert pages[..|pages|] == pages;
    var flush := FlushMetadata(crc, f, ino, |pages|, path);
    if pages == [] {
      return Fine, dst;
    }
    if flush.Lost? {
      return Failure, dst;
    }
    StashedSize(crc, ino, path, pages);
    var keep, reset;
    err, keep, reset, out := RestoreFile(crc, flush.f, ino, dst, w);
    StashRoundTrip(crc, ino, path, pages, dst, out);
    if w.pinned.Restoring? && w.dstOpens && !w.foreign {
      SomePages(flush.f, offs, pages, dst, out, w.writable);
    }
  }

  /** The pages below index `n` are all, or exactly as many as could be written. */
  predicate OnlyWritten(pages: seq<Page>, n: nat, writable: nat) {
    if writable >= |PageIndices(pages)| then PagesFrom(pages, n) == {}
    else writable + |PagesFrom(pages, n)| == |PageIndices(pages)|
  }

  lemma SomePages(g: Sparse, offs: nat, pages: seq<Page>, dst: seq<byte>, out: seq<byte>, writable: nat)
    requires pages != [] && (forall k :: 0 <= k < |pages| ==> ValidPage(pages[k])) && HoldsPages(g, offs, pages)
    requires ReplayedSome(g, offs, dst, out, writable) && |DataFrom(g, offs)| == |PageIndices(pages)|
    ensures exists n :: ReplayedBelow(pages, dst, out, n) && OnlyWritten(pages, n, writable)
  {
    var reached :|
      && offs * BLK_SIZE <= reached && Merged(g, offs * BLK_SIZE, reached, dst, out)
      && if writable >= |DataFrom(g, offs)| then reached >= |g.content|
         else reached % BLK_SIZE == 0 && writable + |DataFrom(g, reached / BLK_SIZE)| == |DataFrom(g, offs)|;
    var n := if writable >= |PageIndices(pages)| then reached / BLK_SIZE + 1 else reached / BLK_SIZE - offs;
    if writable >= |PageIndices(pages)| {
      SkipHole(g, offs * BLK_SIZE, reached, (offs + n) * BLK_SIZE, dst, out);
      forall p | p in PageIndices(pages) ensures p < n {
        var k :| 0 <= k < |pages| && pages[k].index == p;
        PageBeforeEnd(pages, k);
      }
    } else {
      OneWriteEach(g, offs, pages, n);
    }
    StoppedCopy(g, offs, pages, dst, out, n);
    assert ReplayedBelow(pages, dst, out, n) && OnlyWritten(pages, n, writable);
  }

  /**
   A stash file in the directory, its destination, and what its restore meets; `opens` if the file
   itself can be opened
   */
  datatype File = File(opens: bool, g: Sparse, ino: nat, dst: seq<byte>, w: World)

  /** A file handled: what its restore reported, and the destination after it */
  datatype Handled = Handled(file: File, err: Errno, out: seq<byte>)

  /**
   Success has the full data behind it, unless the remote file is another inode; a shutdown means the
   peer went offline.
   */
  ghost predicate Explained(crc: seq<byte> -> nat, h: Handled) {
    var f := h.file;
    && (h.err.Fine? <==> f.opens && Reaches(crc, f.g, f.ino, f.w) && (f.w.foreign || Writes(crc, f.g, f.ino, f.w)))
    && (h.err.Fine? && !f.w.foreign ==> FullyRestored(crc, f.g, f.ino, f.dst, h.out))
    && (f.opens && Reaches(crc, f.g, f.ino, f.w) && !f.w.foreign ==>
          ReplayedSome(f.g, RestoreMetadata(crc, f.g, f.ino).dataOffs, f.dst, h.out, f.w.writable))
    && (h.err.Shutdown? ==> f.opens && f.w.offline)
    && (!f.opens || f.w.foreign || !Reaches(crc, f.g, f.ino, f.w) ==> h.out == f.dst)
  }

  method RestoreOne(crc: seq<byte> -> nat, f: File) returns (h: Handled)
    ensures Explained(crc, h) && h.file == f
  {
    if !f.opens {
      return Handled(f, Failure, f.dst);
    }
    var err, keep, reset, out := RestoreFile(crc, f.g, f.ino, f.dst, f.w);
    h := Handled(f, err, out);
  }

  datatype Stats = Stats(succeed: nat, fail: nat, keep: nat)

  function Tally(hs: seq<Handled>, e: Errno): nat {
    if hs == [] then 0 else Tally(hs[..|hs| - 1], e) + if hs[|hs| - 1].err == e then 1 else 0
  }

  function Tallied(hs: seq<Handled>): Stats {
    Stats(Tally(hs, Fine), Tally(hs, Failure), Tally(hs, Shutdown))
  }

  /** hmdfs_update_restore_stats */
  function Updated(stats: Stats, err: Errno): Stats {
    match err
    case Fine => stats.(succeed := stats.succeed + 1)
    case Shutdown => stats.(keep := stats.keep + 1)
    case Failure => stats.(fail := stats.fail + 1)
  }

  lemma TalliedMore(hs: seq<Handled>, h: Handled)
    ensures Tallied(hs + [h]) == Updated(Tallied(hs), h.err)
  {
    assert (hs + [h])[..|hs|] == hs;
  }

  ghost predicate AllExplained(crc: seq<byte> -> nat, files: seq<File>, hs: seq<Handled>) {
    |hs| <= |files| && forall k :: 0 <= k < |hs| ==> hs[k].file == files[k] && Explained(crc, hs[k])
  }

  predicate NoneCutOff(hs: seq<Handled>) {
    forall k :: 0 <= k < |hs| ==> !hs[k].err.Shutdown?
  }

  lemma OneMore(crc: seq<byte> -> nat, files: seq<File>, hs: seq<Handled>, h: Handled)
    requires AllExplained(crc, files, hs) && |hs| < |files| && h.file == files[|hs|] && Explained(crc, h)
    ensures AllExplained(crc, files, hs + [h])
  {
  }

  method RestoreNext(crc: seq<byte> -> nat, files: seq<File>, hs: seq<Handled>) returns (h: Handled)
    requires AllExplained(crc, files, hs) && |hs| < |files|
    ensures AllExplained(crc, files, hs + [h]) && h.file == files[|hs|]
  {
    h := RestoreOne(crc, files[|hs|]);
    OneMore(crc, files, hs, h);
  }

  /**
   hmdfs_restore_files: the files in turn, up to the first one cut off by the peer going offline.
   Every file handled is explained by its result and counted once; the one cut off, and no other
   that was opened, is kept.
   */
  method RestoreFiles(crc: seq<byte> -> nat, files: seq<File>)
    returns (stats: Stats, deleted: set<nat>, hs: seq<Handled>)
    ensures AllExplained(crc, files, hs)
    ensures stats == Tallied(hs) && stats.succeed + stats.fail + stats.keep == |hs|
    ensures if stats.keep == 0 then |hs| == |files| && NoneCutOff(hs)
            else stats.keep == 1 && |hs| > 0 && NoneCutOff(hs[..|hs| - 1]) && hs[|hs| - 1].err.Shutdown?
    ensures forall k :: k in deleted <==> 0 <= k < |hs| && hs[k].file.opens && !hs[k].err.Shutdown?
  {
    stats, deleted, hs := Stats(0, 0, 0), {}, [];
    while |hs| < |files|
      invariant AllExplained(crc, files, hs) && NoneCutOff(hs)
      invariant stats == Tallied(hs)
      invariant stats.succeed + stats.fail == |hs| && stats.keep == 0
      invariant forall k :: k in deleted <==> 0 <= k < |hs| && hs[k].file.opens
      decreases |files| - |hs|
    {
      var n := |hs|;
      var h := RestoreNext(crc, files, hs);
      TalliedMore(hs, h);
      ghost var before := hs;
      hs, stats := hs + [h], Updated(stats, h.err);
      assert hs[..n] == before;
      if h.err.Shutdown? {
        return;
      }
      if h.file.opens {
        deleted := deleted + {n};
      }
    }
  }
}
