/** Machine words, the sizes that several parts of the kernel share, and counting in finite sets. */
module Basics {
  const WORD_LIMIT := 0x1_0000_0000

  /** Most blocks that one system call may log, blocks that the log's header can list, and buffers in the cache. */
  const MAXOPBLOCKS := 10
  const LOGSIZE := 30
  const NBUF := 30

  type Byte = x: int | 0 <= x < 256 witness 0
  type Word = x: int | 0 <= x < WORD_LIMIT witness 0

  /** 32-bit unsigned arithmetic. */
  function Wrap(x: nat): (r: Word) {
    x % WORD_LIMIT
  }

  function Min(a: nat, b: nat): (r: nat) {
    if a < b then a else b
  }

  lemma UnionCard<T>(a: set<T>, b: set<T>)
    ensures |a + b| <= |a| + |b|
    ensures a !! b ==> |a + b| == |a| + |b|
  {
    assert |a + b| == |a| + |b| - |a * b|;
  }

  lemma SubsetCard<T>(a: set<T>, b: set<T>)
    requires a <= b
    ensures |a| <= |b| && (|a| == |b| ==> a == b)
  {
    assert b == a + (b - a);
    UnionCard(a, b - a);
  }
}
