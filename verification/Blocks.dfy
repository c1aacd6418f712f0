/** Disk blocks, the 32-bit little-endian words laid out in them, and sequences of block writes. */
module Blocks {
  import opened Basics

  const BSIZE := 512
  const WORDS := 128

  type Block = b: seq<Byte> | |b| == BSIZE witness ZeroBytes(BSIZE)

  function ZeroBytes(n: nat): (s: seq<Byte>)
    ensures |s| == n && forall i :: 0 <= i < n ==> s[i] == 0
  {
    seq(n, i => 0)
  }

  const ZeroBlock: Block := ZeroBytes(BSIZE)

  function Join(b0: Byte, b1: Byte, b2: Byte, b3: Byte): (w: Word) {
    var (x1: int, x2: int, x3: int) := (b1, b2, b3);
    b0 + 0x100 * x1 + 0x1_0000 * x2 + 0x100_0000 * x3
  }

  /** The `i`-th `uint` of a block viewed as `uint[128]`. */
  function GetWord(b: Block, i: nat): (w: Word)
    requires i < WORDS
  {
    Join(b[4 * i], b[4 * i + 1], b[4 * i + 2], b[4 * i + 3])
  }

  function PutWord(b: Block, i: nat, w: Word): (r: Block)
    requires i < WORDS
  {
    b[..4 * i] + [w % 0x100, w / 0x100 % 0x100, w / 0x1_0000 % 0x100, w / 0x100_0000] + b[4 * i + 4..]
  }

  lemma JoinSplit(w: Word)
    ensures Join(w % 0x100, w / 0x100 % 0x100, w / 0x1_0000 % 0x100, w / 0x100_0000) == w
  {
    assert w == 0x100 * (w / 0x100) + w % 0x100;
    assert w / 0x100 == 0x100 * (w / 0x1_0000) + w / 0x100 % 0x100;
    assert w / 0x1_0000 == 0x100 * (w / 0x100_0000) + w / 0x1_0000 % 0x100;
  }

  lemma PutWordGet(b: Block, i: nat, w: Word)
    requires i < WORDS
    ensures GetWord(PutWord(b, i, w), i) == w
    ensures forall j :: 0 <= j < WORDS && j != i ==> GetWord(PutWord(b, i, w), j) == GetWord(b, j)
  {
    JoinSplit(w);
  }

  lemma ZeroBlockWords(i: nat)
    requires i < WORDS
    ensures GetWord(ZeroBlock, i) == 0
  {
  }

  // ---- whole disks and the writes made to them ----

  /** A disk is its array of blocks. One write of one block is the atomic unit: a crash falls between writes. */
  type Disk = seq<Block>

  datatype Write = Write(bno: nat, data: Block)

  predicate InRange(ws: seq<Write>, size: nat) {
    forall i :: 0 <= i < |ws| ==> ws[i].bno < size
  }

  /** The disk after the first `k` of the writes `ws`. */
  function Play(d: Disk, ws: seq<Write>, k: nat): (r: Disk)
    requires InRange(ws, |d|) && k <= |ws|
    ensures |r| == |d|
  {
    if k == 0 then d else Play(d, ws, k - 1)[ws[k - 1].bno := ws[k - 1].data]
  }

  /** A block that no write names keeps its contents. */
  lemma {:induction false} PlayUntouched(d: Disk, ws: seq<Write>, k: nat, x: nat)
    requires InRange(ws, |d|) && k <= |ws| && x < |d|
    requires forall i :: 0 <= i < k ==> ws[i].bno != x
    ensures Play(d, ws, k)[x] == d[x]
  {
    if k > 0 {
      PlayUntouched(d, ws, k - 1, x);
    }
  }

  /** A block holds the data of the last write that names it. */
  lemma {:induction false} PlayWritten(d: Disk, ws: seq<Write>, k: nat, i: nat)
    requires InRange(ws, |d|) && i < k <= |ws|
    requires forall j :: i < j < k ==> ws[j].bno != ws[i].bno
    ensures Play(d, ws, k)[ws[i].bno] == ws[i].data
  {
    if i < k - 1 {
      PlayWritten(d, ws, k - 1, i);
    }
  }

  lemma {:induction false} PlayPrefix(d: Disk, a: seq<Write>, b: seq<Write>, k: nat)
    requires InRange(a, |d|) && InRange(b, |d|) && k <= |a|
    ensures InRange(a + b, |d|) && Play(d, a + b, k) == Play(d, a, k)
  {
    if k > 0 {
      PlayPrefix(d, a, b, k - 1);
    }
  }

  /** Playing two scripts one after the other is playing their concatenation. */
  lemma {:induction false} PlayAppend(d: Disk, a: seq<Write>, b: seq<Write>, k: nat)
    requires InRange(a, |d|) && InRange(b, |d|) && k <= |b|
    ensures InRange(a + b, |d|) && Play(d, a + b, |a| + k) == Play(Play(d, a, |a|), b, k)
  {
    if k == 0 {
      PlayPrefix(d, a, b, |a|);
    } else {
      PlayAppend(d, a, b, k - 1);
      assert (a + b)[|a| + k - 1] == b[k - 1];
    }
  }
}
