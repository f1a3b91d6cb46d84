/**
 Addressing of the on-disk directory index: level `l` owns 2^l buckets of two
 4096-byte groups, and the levels are laid out one after the other behind a
 4096-byte header.
 */
module DentryLayout {
  import opened Bytes

  const MAX_BUCKET_LEVEL: nat := 63
  const BUCKET_BLOCKS: nat := 2
  const DENTRYGROUP_SIZE: nat := 4096
  const DENTRYGROUP_HEADER: nat := 4096

  function Pow2(n: nat): (r: nat)
    ensures r >= 1
  {
    if n == 0 then 1 else 2 * Pow2(n - 1)
  }

  /** get_bucketaddr: both out-of-range branches answer 0. */
  function BucketAddr(level: nat, offset: nat): nat {
    if level >= MAX_BUCKET_LEVEL then 0
    else if offset >= Pow2(level) then 0
    else Pow2(level) + offset - 1
  }

  function BucketsByLevel(level: nat): nat {
    if level >= MAX_BUCKET_LEVEL then 0 else Pow2(level)
  }

  function OverallBuckets(level: nat): nat {
    if level >= MAX_BUCKET_LEVEL then 0 else Pow2(level + 1) - 1
  }

  /** The value of `x` stored in a signed 64-bit offset. */
  function Signed64(x: int): int {
    var m := x % TWO_64;
    if m < TWO_63 then m else m - TWO_64
  }

  /** get_dcache_file_size, evaluated in 64-bit arithmetic. */
  function DcacheFileSize(level: nat): int {
    Signed64(OverallBuckets(level) * DENTRYGROUP_SIZE * BUCKET_BLOCKS + DENTRYGROUP_HEADER)
  }

  /** get_dentry_group_cnt: the count is returned as an unsigned 32-bit value. */
  function GroupCount(size: int): nat {
    if size >= DENTRYGROUP_HEADER then ((size - DENTRYGROUP_HEADER) / DENTRYGROUP_SIZE) % TWO_32 else 0
  }

  /** fls: the position of the highest set bit, counted from 1. */
  function Fls(n: nat): nat {
    if n == 0 then 0 else 1 + Fls(n / 2)
  }

  /** get_count_order: the least k with 2^k >= n. */
  function CountOrder(n: nat): int {
    if n == 0 then -1 else Fls(n - 1)
  }

  /** get_max_depth for a file that holds `groups` groups. */
  function MaxDepth(groups: nat): nat {
    CountOrder(groups / BUCKET_BLOCKS + 1)
  }

  /** The number of groups in a file holding exactly the levels 0..depth-1. */
  function LevelGroups(depth: nat): nat {
    BUCKET_BLOCKS * (Pow2(depth) - 1)
  }

  /** The level and offset that own a bucket: the inverse of BucketAddr. */
  function BucketLevel(bucket: nat): nat {
    Fls(bucket + 1) - 1
  }

  function BucketOffset(bucket: nat): int {
    bucket + 1 - Pow2(BucketLevel(bucket))
  }

  lemma {:induction false} Pow2Monotone(a: nat, b: nat)
    requires a <= b
    ensures Pow2(a) <= Pow2(b)
    ensures a < b ==> 2 * Pow2(a) <= Pow2(b)
  {
    if a < b {
      Pow2Monotone(a, b - 1);
    }
  }

  lemma {:induction false} FlsBounds(n: nat)
    requires n > 0
    ensures Fls(n) > 0 && Pow2(Fls(n) - 1) <= n < Pow2(Fls(n))
  {
    if n > 1 {
      FlsBounds(n / 2);
      assert Pow2(Fls(n)) == 2 * Pow2(Fls(n) - 1);
    }
  }

  lemma {:induction false} Pow2Sum(a: nat, b: nat)
    ensures Pow2(a + b) == Pow2(a) * Pow2(b)
  {
    if a > 0 {
      Pow2Sum(a - 1, b);
    }
  }

  lemma Pow2Of31()
    ensures Pow2(31) == 0x8000_0000 && Pow2(32) == TWO_32
  {
    assert Pow2(4) == 16;
    Pow2Sum(4, 4);
    Pow2Sum(8, 8);
    Pow2Sum(16, 16);
  }

  /** Powers of two bracket a number in only one way. */
  lemma FlsUnique(n: nat, k: nat)
    requires n > 0 && Pow2(k) <= n < 2 * Pow2(k)
    ensures Fls(n) == k + 1
  {
    FlsBounds(n);
    var f := Fls(n) - 1;
    assert Pow2(f + 1) == 2 * Pow2(f);
    if f < k {
      Pow2Monotone(f, k);
    }
    if k < f {
      Pow2Monotone(k, f);
    }
  }

  /**
   BucketAddr is a bijection between the (level, offset) pairs and the bucket
   numbers: every pair is recovered from its address ...
   */
  lemma BucketAddrInverse(level: nat, offset: nat)
    requires level < MAX_BUCKET_LEVEL && offset < Pow2(level)
    ensures BucketLevel(BucketAddr(level, offset)) == level
    ensures BucketOffset(BucketAddr(level, offset)) == offset
    ensures LevelGroups(level) <= BUCKET_BLOCKS * BucketAddr(level, offset)
    ensures BUCKET_BLOCKS * BucketAddr(level, offset) + BUCKET_BLOCKS <= LevelGroups(level + 1)
  {
    FlsUnique(Pow2(level) + offset, level);
  }

  /** ... and every bucket below the last level is the address of its pair. */
  lemma BucketAddrOnto(bucket: nat)
    requires bucket + 1 < Pow2(MAX_BUCKET_LEVEL)
    ensures BucketLevel(bucket) < MAX_BUCKET_LEVEL
    ensures 0 <= BucketOffset(bucket) < Pow2(BucketLevel(bucket))
    ensures BucketAddr(BucketLevel(bucket), BucketOffset(bucket)) == bucket
  {
    FlsBounds(bucket + 1);
    assert Pow2(BucketLevel(bucket) + 1) == 2 * Pow2(BucketLevel(bucket));
    if BucketLevel(bucket) >= MAX_BUCKET_LEVEL {
      Pow2Monotone(MAX_BUCKET_LEVEL, BucketLevel(bucket));
    }
  }

  /** A file of whole levels reports exactly its number of levels. */
  lemma MaxDepthOfWholeLevels(depth: nat)
    ensures MaxDepth(LevelGroups(depth)) == depth
  {
    if depth > 0 {
      FlsUnique(Pow2(depth) - 1, depth - 1);
    }
  }

  /** A bucket lies inside a file of whole levels exactly when its level does. */
  lemma LevelPresent(level: nat, offset: nat, depth: nat)
    requires level < MAX_BUCKET_LEVEL && offset < Pow2(level)
    ensures BUCKET_BLOCKS * BucketAddr(level, offset) + BUCKET_BLOCKS <= LevelGroups(depth) <==> level < depth
  {
    BucketAddrInverse(level, offset);
    if level < depth {
      Pow2Monotone(level + 1, depth);
    } else {
      Pow2Monotone(depth, level);
    }
  }

  /**
   The 64-bit file size and the 32-bit group count agree with the intended
   number of groups exactly for the levels up to 30.
   */
  lemma FileSizeExact(level: nat)
    requires level < MAX_BUCKET_LEVEL
    ensures GroupCount(DcacheFileSize(level)) == LevelGroups(level + 1) <==> level <= 30
  {
    Pow2Of31();
    if level <= 30 {
      Pow2Monotone(level + 1, 31);
    } else {
      Pow2Monotone(32, level + 1);
      assert LevelGroups(level + 1) >= TWO_32;
    }
  }
}
