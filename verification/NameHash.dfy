/**
 The name hash of the directory index: the TEA-based hash taken from f2fs, over
 the bytes as they are or over their lower-case forms.
 */
module NameHash {
  import opened Bytes
  import opened DentryLayout
  import opened DentryGroup
  import opened DentryIndex

  /** A 32-bit machine word. */
  type word = x: int | 0 <= x < 0x1_0000_0000

  /** `f` applied to each pair of bits of `a` and `b`, lowest `n` bits. */
  function Bitwise(f: (bool, bool) -> bool, a: nat, b: nat, n: nat): (r: nat)
    ensures r < Pow2(n)
    decreases n
  {
    if n == 0 then 0
    else (if f(a % 2 == 1, b % 2 == 1) then 1 else 0) + 2 * Bitwise(f, a / 2, b / 2, n - 1)
  }

  function Xor(a: word, b: word): word {
    Pow2Of31();
    Bitwise((x, y) => x != y, a, b, 32)
  }

  function Or(a: word, b: word): word {
    Pow2Of31();
    Bitwise((x, y) => x || y, a, b, 32)
  }

  function Add(a: word, b: word): word {
    (a + b) % TWO_32
  }

  function ShiftLeft(a: word, n: nat): word {
    (a * Pow2(n)) % TWO_32
  }

  /** The byte that str2hashbuf mixes in. */
  function HashByte(c: byte, caseSensitive: bool): byte {
    if caseSensitive then c else ToLower(c)
  }

  function Pad(len: nat): word {
    var l := len % TWO_32;
    var p := Or(l, ShiftLeft(l, 8));
    Or(p, ShiftLeft(p, 16))
  }

  /** Mixing the bytes msg[i..end] into `val`. */
  function MixBytes(msg: Name, i: nat, end: nat, val: word, caseSensitive: bool): word
    requires end <= |msg|
    decreases end - i
  {
    if i >= end then val
    else MixBytes(msg, i + 1, end, Add(HashByte(msg[i], caseSensitive) as int, ShiftLeft(val, 8)), caseSensitive)
  }

  /** Word `w` of the four that str2hashbuf produces; a word without bytes is the padding. */
  function PaddedWord(msg: Name, w: nat, pad: word, caseSensitive: bool): word {
    var end := if 4 * w + 4 <= |msg| then 4 * w + 4 else |msg|;
    MixBytes(msg, 4 * w, end, pad, caseSensitive)
  }

  function HashWord(msg: Name, w: nat, caseSensitive: bool): word {
    PaddedWord(msg, w, Pad(|msg|), caseSensitive)
  }

  const DELTA: word := 0x9E3779B9

  datatype Tea = Tea(b0: word, b1: word)

  /** One round of the cipher for the key `a`, `b`, `c`, `d`. */
  function TeaRound(a: word, b: word, c: word, d: word): (Tea, word) -> Tea {
    (t: Tea, sum: word) =>
      var b0 := Add(t.b0, Xor(Xor(Add(ShiftLeft(t.b1, 4), a), Add(t.b1, sum)), Add(t.b1 / 32, b)));
      var b1 := Add(t.b1, Xor(Xor(Add(ShiftLeft(b0, 4), c), Add(b0, sum)), Add(b0 / 32, d)));
      Tea(b0, b1)
  }

  function TeaRounds(round: (Tea, word) -> Tea, t: Tea, sum: word, n: nat): Tea
    decreases n
  {
    if n == 0 then t
    else
      var s := Add(sum, DELTA);
      TeaRounds(round, round(t, s), s, n - 1)
  }

  /** tea_transform */
  function TeaTransform(t: Tea, a: word, b: word, c: word, d: word): Tea {
    var r := TeaRounds(TeaRound(a, b, c, d), t, 0, 16);
    Tea(Add(t.b0, r.b0), Add(t.b1, r.b1))
  }

  /** The main loop of the hash: `mix` takes the words of the next sixteen bytes. */
  function Chunks(mix: (Tea, word, word, word, word) -> Tea, t: Tea, msg: Name, caseSensitive: bool): Tea
    decreases |msg|
  {
    var next := mix(t, HashWord(msg, 0, caseSensitive), HashWord(msg, 1, caseSensitive),
                    HashWord(msg, 2, caseSensitive), HashWord(msg, 3, caseSensitive));
    if |msg| <= 16 then next else Chunks(mix, next, msg[16..], caseSensitive)
  }

  predicate IsDotDotDot(name: Name) {
    name == [46] || name == [46, 46]
  }

  /** hmdfs_dentry_hash */
  function DentryHash(name: Name, caseSensitive: bool): nat {
    if IsDotDotDot(name) then 0
    else Chunks(TeaTransform, Tea(0x67452301, 0xefcdab89), name, caseSensitive).b0
  }

  lemma FoldPointwise(a: Name, b: Name, i: nat)
    requires Fold(a) == Fold(b) && i < |a|
    ensures |a| == |b| && ToLower(a[i]) == ToLower(b[i])
  {
    assert Fold(a)[i] == ToLower(a[i]);
    assert Fold(b)[i] == ToLower(b[i]);
  }

  lemma {:induction false} MixFolds(a: Name, b: Name, i: nat, end: nat, val: word)
    requires Fold(a) == Fold(b) && end <= |a|
    ensures |a| == |b| && MixBytes(a, i, end, val, false) == MixBytes(b, i, end, val, false)
    decreases end - i
  {
    if i < end {
      FoldPointwise(a, b, i);
      MixFolds(a, b, i + 1, end, Add(HashByte(a[i], false) as int, ShiftLeft(val, 8)));
    }
  }

  lemma WordFolds(a: Name, b: Name, w: nat)
    requires Fold(a) == Fold(b)
    ensures HashWord(a, w, false) == HashWord(b, w, false)
  {
    MixFolds(a, b, 4 * w, if 4 * w + 4 <= |a| then 4 * w + 4 else |a|, Pad(|a|));
  }

  lemma DropFolds(a: Name, b: Name, n: nat)
    requires Fold(a) == Fold(b)
    ensures |a| == |b| && (n <= |a| ==> Fold(a[n..]) == Fold(b[n..]))
  {
    assert |a| == |Fold(a)| == |Fold(b)| == |b|;
    if n <= |a| {
      assert Fold(a[n..]) == Fold(a)[n..] == Fold(b)[n..] == Fold(b[n..]);
    }
  }

  lemma {:induction false} ChunksFold(mix: (Tea, word, word, word, word) -> Tea, t: Tea, a: Name, b: Name)
    requires Fold(a) == Fold(b)
    ensures Chunks(mix, t, a, false) == Chunks(mix, t, b, false)
    decreases |a|
  {
    WordFolds(a, b, 0);
    WordFolds(a, b, 1);
    WordFolds(a, b, 2);
    WordFolds(a, b, 3);
    DropFolds(a, b, 16);
    if |a| > 16 {
      var next := mix(t, HashWord(a, 0, false), HashWord(a, 1, false), HashWord(a, 2, false), HashWord(a, 3, false));
      ChunksFold(mix, next, a[16..], b[16..]);
    }
  }

  /** Names that differ only in case hash alike in the case-insensitive mode. */
  lemma HashFolds(a: Name, b: Name)
    requires Fold(a) == Fold(b)
    ensures DentryHash(a, false) == DentryHash(b, false)
  {
    forall i | 0 <= i < |a| ensures |a| == |b| && ToLower(a[i]) == ToLower(b[i]) {
      FoldPointwise(a, b, i);
    }
    assert |a| == |Fold(a)| == |Fold(b)| == |b|;
    assert IsDotDotDot(a) <==> IsDotDotDot(b);
    ChunksFold(TeaTransform, Tea(0x67452301, 0xefcdab89), a, b);
  }

  /** The index of the plain cache file (80 slots a group) or of the cloud one (60). */
  function IndexConfig(cloud: bool, caseSensitive: bool, maxGroups: nat): Config {
    Config(if cloud then 60 else 80, (name: Name) => DentryHash(name, caseSensitive), caseSensitive, maxGroups)
  }

  /** The real hash meets what the index asks of it, and every file name fits a group. */
  lemma IndexConfigValid(cloud: bool, caseSensitive: bool, maxGroups: nat)
    requires maxGroups < TWO_32
    ensures ValidConfig(IndexConfig(cloud, caseSensitive, maxGroups))
    ensures Slots(NAME_MAX) <= IndexConfig(cloud, caseSensitive, maxGroups).perGroup
  {
    var cfg := IndexConfig(cloud, caseSensitive, maxGroups);
    if !caseSensitive {
      forall a, b | Fold(a) == Fold(b) ensures cfg.hash(a) == cfg.hash(b) {
        HashFolds(a, b);
      }
    }
  }

  /** Groups fill their block: sixteen bytes besides, and a record and a name part for each slot. */
  lemma GroupsFillBlocks(caseSensitive: bool, maxGroups: nat)
    ensures 16 + IndexConfig(false, caseSensitive, maxGroups).perGroup * (43 + DENTRY_NAME_LEN) == DENTRYGROUP_SIZE
    ensures 16 + IndexConfig(true, caseSensitive, maxGroups).perGroup * (60 + DENTRY_NAME_LEN) == DENTRYGROUP_SIZE
  {
  }

  // ----- the code -----

  lemma {:induction false} MixExtend(msg: Name, i: nat, end: nat, val: word, caseSensitive: bool)
    requires i <= end < |msg|
    ensures MixBytes(msg, i, end + 1, val, caseSensitive) ==
            Add(HashByte(msg[end], caseSensitive) as int, ShiftLeft(MixBytes(msg, i, end, val, caseSensitive), 8))
    decreases end - i
  {
    if i < end {
      MixExtend(msg, i + 1, end, Add(HashByte(msg[i], caseSensitive) as int, ShiftLeft(val, 8)), caseSensitive);
    }
  }

  /** The word that is full after byte `i`, or that holds what is left of the bytes. */
  lemma WordAt(msg: Name, i: nat, pad: word, caseSensitive: bool)
    requires i <= |msg|
    ensures i % 4 == 3 && i < |msg| ==>
              PaddedWord(msg, i / 4, pad, caseSensitive) == MixBytes(msg, 4 * (i / 4), i + 1, pad, caseSensitive)
    ensures i == |msg| ==>
              PaddedWord(msg, i / 4, pad, caseSensitive) == MixBytes(msg, 4 * (i / 4), i, pad, caseSensitive)
  {
  }

  /** The loops of str2hashbuf, for four words */
  method FillWords(msg: Name, pad: word, caseSensitive: bool) returns (buf: seq<word>)
    ensures |buf| == 4 && forall w :: 0 <= w < 4 ==> buf[w] == PaddedWord(msg, w, pad, caseSensitive)
  {
    var len := if |msg| > 16 then 16 else |msg|;
    var val := pad;
    buf := [];
    var i := 0;
    while i < len
      invariant 0 <= i <= len && |buf| == i / 4
      invariant forall w :: 0 <= w < |buf| ==> buf[w] == PaddedWord(msg, w, pad, caseSensitive)
      invariant val == MixBytes(msg, 4 * (i / 4), i, pad, caseSensitive)
    {
      if i % 4 == 0 {
        val := pad;
      }
      MixExtend(msg, 4 * (i / 4), i, pad, caseSensitive);
      WordAt(msg, i, pad, caseSensitive);
      val := Add(HashByte(msg[i], caseSensitive) as int, ShiftLeft(val, 8));
      if i % 4 == 3 {
        buf := buf + [val];
        val := pad;
      }
      i := i + 1;
    }
    WordAt(msg, len, pad, caseSensitive);
    if |buf| < 4 {
      buf := buf + [val];
    }
    while |buf| < 4
      invariant |buf| <= 4 && (|buf| < 4 ==> 4 * |buf| > |msg|)
      invariant forall w :: 0 <= w < |buf| ==> buf[w] == PaddedWord(msg, w, pad, caseSensitive)
    {
      buf := buf + [pad];
    }
  }

  /** str2hashbuf */
  method Str2HashBuf(msg: Name, caseSensitive: bool) returns (buf: seq<word>)
    ensures |buf| == 4 && forall w :: 0 <= w < 4 ==> buf[w] == HashWord(msg, w, caseSensitive)
  {
    buf := FillWords(msg, Pad(|msg|), caseSensitive);
  }

  /** The do-while loop of tea_transform */
  method TeaLoop(round: (Tea, word) -> Tea, t: Tea, rounds: nat) returns (r: Tea)
    requires rounds > 0
    ensures r == TeaRounds(round, t, 0, rounds)
  {
    var sum: word := 0;
    var n := rounds;
    r := t;
    while n > 0
      invariant TeaRounds(round, t, 0, rounds) == TeaRounds(round, r, sum, n)
    {
      sum := Add(sum, DELTA);
      r := round(r, sum);
      n := n - 1;
    }
  }

  method TeaTransformInPlace(t: Tea, a: word, b: word, c: word, d: word) returns (r: Tea)
    ensures r == TeaTransform(t, a, b, c, d)
  {
    var s := TeaLoop(TeaRound(a, b, c, d), t, 16);
    r := Tea(Add(t.b0, s.b0), Add(t.b1, s.b1));
  }

  /** hmdfs_dentry_hash; the mask of its last line lies above 32 bits. */
  method HmdfsDentryHash(name: Name, caseSensitive: bool) returns (hash: nat)
    ensures hash == DentryHash(name, caseSensitive)
  {
    if IsDotDotDot(name) {
      return 0;
    }
    var buf, p := Tea(0x67452301, 0xefcdab89), name;
    while true
      invariant Chunks(TeaTransform, Tea(0x67452301, 0xefcdab89), name, caseSensitive) ==
                Chunks(TeaTransform, buf, p, caseSensitive)
      decreases |p|
    {
      var w := Str2HashBuf(p, caseSensitive);
      buf := TeaTransformInPlace(buf, w[0], w[1], w[2], w[3]);
      if |p| <= 16 {
        return buf.b0;
      }
      p := p[16..];
    }
  }
}
