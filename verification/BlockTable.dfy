// splitPieceHashes and initiatePieces of PieceManager.cpp: the table of blocks, and when it covers
// the whole of the content.
module BlockTable {
  import opened Types
  import opened Blocks

  const BLOCK_SIZE := 16384
  const HASH_LENGTH := 20

  // The k-th piece hash; the last may be short.
  function HashAt(pieces: bytes, k: nat): bytes
    requires HASH_LENGTH * k <= |pieces|
  {
    var from := HASH_LENGTH * k;
    if from + HASH_LENGTH <= |pieces| then pieces[from..from + HASH_LENGTH] else pieces[from..]
  }

  function HashesOf(pieces: bytes): (hashes: seq<bytes>)
    ensures |hashes| == (|pieces| + HASH_LENGTH - 1) / HASH_LENGTH
    ensures forall k :: 0 <= k < |hashes| ==> HASH_LENGTH * k <= |pieces| && hashes[k] == HashAt(pieces, k)
  {
    seq((|pieces| + HASH_LENGTH - 1) / HASH_LENGTH,
        k requires 0 <= k && HASH_LENGTH * k <= |pieces| => HashAt(pieces, k))
  }

  method SplitPieceHashes(pieces: bytes) returns (hashes: seq<bytes>)
    ensures hashes == HashesOf(pieces)
  {
    hashes := [];
    var i := 0;
    while i < |pieces|
      invariant i == HASH_LENGTH * |hashes| && i < |pieces| + HASH_LENGTH
      invariant forall k :: 0 <= k < |hashes| ==> HASH_LENGTH * k <= |pieces| && hashes[k] == HashAt(pieces, k)
    {
      hashes := hashes + [if i + HASH_LENGTH <= |pieces| then pieces[i..i + HASH_LENGTH] else pieces[i..]];
      i := i + HASH_LENGTH;
    }
  }

  // The pieces string of a torrent file.
  function Join(hashes: seq<bytes>): bytes {
    if hashes == [] then [] else hashes[0] + Join(hashes[1..])
  }

  lemma {:induction false} JoinAt(hashes: seq<bytes>, k: nat)
    requires forall i :: 0 <= i < |hashes| ==> |hashes[i]| == 20
    ensures |Join(hashes)| == 20 * |hashes|
    ensures k < |hashes| ==> Join(hashes)[20 * k..][..20] == hashes[k]
  {
    if hashes != [] {
      JoinAt(hashes[1..], if k > 0 then k - 1 else 0);
      if 0 < k < |hashes| { assert Join(hashes)[20 * k..] == Join(hashes[1..])[20 * (k - 1)..]; }
    }
  }

  // The string of any hashes of the length of a SHA-1 digest is split into these hashes.
  lemma SplitJoined(hashes: seq<bytes>)
    requires forall i :: 0 <= i < |hashes| ==> |hashes[i]| == 20
    ensures HashesOf(Join(hashes)) == hashes
  {
    JoinAt(hashes, 0);
    forall k | 0 <= k < |hashes| ensures HashAt(Join(hashes), k) == hashes[k] {
      JoinAt(hashes, k);
      assert Join(hashes)[20 * k..][..20] == Join(hashes)[20 * k..20 * k + 20];
    }
  }

  // How many blocks piece i of n has.
  function BlockCount(pieceLength: nat, totalLength: nat, n: nat, i: nat): nat
    requires pieceLength > 0
  {
    if i == n - 1 then
      var count := totalLength % pieceLength / BLOCK_SIZE;
      if count > 1 then count else 1
    else pieceLength / BLOCK_SIZE
  }

  function BlockOf(pieceLength: nat, totalLength: nat, n: nat, i: nat, k: nat): Block
    requires pieceLength > 0
  {
    var last := i == n - 1 && k == BlockCount(pieceLength, totalLength, n, i) - 1;
    Block(k * BLOCK_SIZE, if last then totalLength % pieceLength % BLOCK_SIZE else BLOCK_SIZE, Missing, [])
  }

  function PieceBlocks(pieceLength: nat, totalLength: nat, n: nat, i: nat): (bs: seq<Block>)
    requires pieceLength > 0
    ensures |bs| == BlockCount(pieceLength, totalLength, n, i)
  {
    seq(BlockCount(pieceLength, totalLength, n, i), k requires 0 <= k => BlockOf(pieceLength, totalLength, n, i, k))
  }

  function Table(pieceLength: nat, totalLength: nat, n: nat): (table: seq<seq<Block>>)
    requires pieceLength > 0
    ensures |table| == n
  {
    seq(n, i requires 0 <= i => PieceBlocks(pieceLength, totalLength, n, i))
  }

  // initiatePieces, for as many pieces as there are hashes.
  method InitiatePieces(pieceLength: nat, totalLength: nat, totalPieces: nat) returns (table: seq<seq<Block>>)
    requires pieceLength > 0
    ensures table == Table(pieceLength, totalLength, totalPieces)
  {
    hide BlockOf;
    var blockCount := pieceLength / BLOCK_SIZE;
    var remLength := pieceLength;
    table := [];
    for i := 0 to totalPieces
      invariant |table| == i
      invariant blockCount == pieceLength / BLOCK_SIZE || i == totalPieces
      invariant forall j :: 0 <= j < i ==> table[j] == PieceBlocks(pieceLength, totalLength, totalPieces, j)
    {
      if i == totalPieces - 1 {
        remLength := totalLength % pieceLength;
        blockCount := if remLength / BLOCK_SIZE > 1 then remLength / BLOCK_SIZE else 1;
      }
      var blocks := [];
      for offset := 0 to blockCount
        invariant |blocks| == offset
        invariant forall k :: 0 <= k < offset ==> blocks[k] == BlockOf(pieceLength, totalLength, totalPieces, i, k)
      {
        var blockSize := BLOCK_SIZE;
        if i == totalPieces - 1 && offset == blockCount - 1 {
          blockSize := remLength % BLOCK_SIZE;
        }
        var block := Block(offset * BLOCK_SIZE, blockSize, Missing, []);
        IsBlockOf(pieceLength, totalLength, totalPieces, i, offset, block);
        blocks := blocks + [block];
      }
      table := table + [blocks];
    }
  }

  lemma IsBlockOf(pieceLength: nat, totalLength: nat, n: nat, i: nat, k: nat, b: Block)
    requires pieceLength > 0
    requires b.offset == k * BLOCK_SIZE && b.status == Missing && b.data == []
    requires b.length == if i == n - 1 && k == BlockCount(pieceLength, totalLength, n, i) - 1
      then totalLength % pieceLength % BLOCK_SIZE else BLOCK_SIZE
    ensures b == BlockOf(pieceLength, totalLength, n, i, k)
  {}

  // Nothing of the table has been asked for, and no two blocks of a piece start at the same place.
  lemma TableIsFresh(pieceLength: nat, totalLength: nat, n: nat)
    requires pieceLength > 0
    ensures forall i :: 0 <= i < n ==>
      IsFresh(Table(pieceLength, totalLength, n)[i]) && DistinctOffsets(Table(pieceLength, totalLength, n)[i])
  {
    hide BlockCount;
  }

  // Every piece has a block exactly when the pieces are no shorter than a block or there is only one.
  lemma TableHasBlocks(pieceLength: nat, totalLength: nat, n: nat)
    requires pieceLength > 0
    ensures (forall i :: 0 <= i < n ==> Table(pieceLength, totalLength, n)[i] != [])
       <==> pieceLength >= 16384 || n <= 1
  {
    var table := Table(pieceLength, totalLength, n);
    if n > 1 { assert |table[0]| == pieceLength / BLOCK_SIZE; }
  }

  // ----- coverage -----

  // The blocks lie one after the other from one offset of the piece to another.
  predicate Contiguous(bs: seq<Block>, from: int, to: int) {
    if bs == [] then from == to
    else bs[0].offset == from && Contiguous(bs[1..], from + bs[0].length, to)
  }

  // The number of content bytes in piece i.
  function PieceSize(pieceLength: nat, totalLength: nat, i: nat): int {
    if (i + 1) * pieceLength <= totalLength then pieceLength else totalLength - i * pieceLength
  }

  ghost predicate CoversPiece(pieceLength: nat, totalLength: nat, n: nat, i: nat)
    requires pieceLength > 0 && i < n
  {
    Contiguous(Table(pieceLength, totalLength, n)[i], 0, PieceSize(pieceLength, totalLength, i))
  }

  // The table covers the content without gaps or overlaps.
  ghost predicate Covers(pieceLength: nat, totalLength: nat, n: nat)
    requires pieceLength > 0
  {
    forall i :: 0 <= i < n ==> CoversPiece(pieceLength, totalLength, n, i)
  }

  // There is one hash for every piece that the content reaches.
  predicate OneHashPerPiece(pieceLength: nat, totalLength: nat, n: nat) {
    totalLength <= n * pieceLength && (n > 0 ==> (n - 1) * pieceLength < totalLength)
  }

  lemma {:induction false} ContiguousEnd(bs: seq<Block>, k: nat, last: int, to: int)
    requires k < |bs| && forall j :: k <= j < |bs| ==> bs[j].offset == j * BLOCK_SIZE
    requires forall j :: k <= j < |bs| - 1 ==> bs[j].length == BLOCK_SIZE
    requires bs[|bs| - 1].length == last
    ensures Contiguous(bs[k..], k * BLOCK_SIZE, to) <==> to == (|bs| - 1) * BLOCK_SIZE + last
    decreases |bs| - k
  {
    assert bs[k..][1..] == bs[k + 1..];
    if k + 1 < |bs| {
      ContiguousEnd(bs, k + 1, last, to);
    }
  }

  // The blocks of every piece are contiguous from its start, and all but the last of a piece have 16384 bytes.
  // Those of an inner piece reach to the last whole block, those of the last piece to the end of what is left
  // when that is less than a block, and otherwise to one block before it.
  lemma TableReaches(pieceLength: nat, totalLength: nat, n: nat, i: nat)
    requires pieceLength > 0 && i < n
    ensures var bs, rem := Table(pieceLength, totalLength, n)[i], totalLength % pieceLength;
      && (forall k :: 0 <= k < |bs| - 1 ==> bs[k].length == 16384)
      && Contiguous(bs, 0, if i < n - 1 then pieceLength - pieceLength % 16384
                           else if rem < 16384 then rem else rem - 16384)
      && (if i < n - 1 then |bs| == pieceLength / 16384 else bs != [])
  {
    var bs, rem := Table(pieceLength, totalLength, n)[i], totalLength % pieceLength;
    if |bs| > 0 {
      ContiguousEnd(bs, 0, bs[|bs| - 1].length, (|bs| - 1) * BLOCK_SIZE + bs[|bs| - 1].length);
      assert bs[0..] == bs;
    }
  }

  // A piece that is not the last is covered exactly when its length is a multiple of the block size.
  lemma InnerPieceCovered(pieceLength: nat, totalLength: nat, n: nat, i: nat)
    requires pieceLength > 0 && i < n - 1 && (i + 1) * pieceLength <= totalLength
    ensures CoversPiece(pieceLength, totalLength, n, i) <==> pieceLength % BLOCK_SIZE == 0
  {
    var bs := Table(pieceLength, totalLength, n)[i];
    if |bs| > 0 {
      ContiguousEnd(bs, 0, BLOCK_SIZE, pieceLength);
      assert bs[0..] == bs;
    }
  }

  // The last piece is covered exactly when what is left for it is positive and less than a block.
  lemma LastPieceCovered(pieceLength: nat, totalLength: nat, n: nat)
    requires pieceLength > 0 && n > 0 && OneHashPerPiece(pieceLength, totalLength, n)
    ensures CoversPiece(pieceLength, totalLength, n, n - 1) <==> 0 < totalLength % pieceLength < BLOCK_SIZE
  {
    var rem := totalLength % pieceLength;
    var size := PieceSize(pieceLength, totalLength, n - 1);
    LastPieceSize(pieceLength, totalLength, n);
    var bs := Table(pieceLength, totalLength, n)[n - 1];
    ContiguousEnd(bs, 0, rem % BLOCK_SIZE, size);
    assert bs[0..] == bs;
  }

  lemma LastPieceSize(pieceLength: nat, totalLength: nat, n: nat)
    requires pieceLength > 0 && n > 0 && OneHashPerPiece(pieceLength, totalLength, n)
    ensures var rem := totalLength % pieceLength;
      PieceSize(pieceLength, totalLength, n - 1) == if rem == 0 then pieceLength else rem
  {
    var size := totalLength - (n - 1) * pieceLength;
    assert n * pieceLength == (n - 1) * pieceLength + pieceLength;
    assert 0 < size <= pieceLength;
    if size < pieceLength {
      Remainder(totalLength, pieceLength, n - 1, size);
    } else {
      Remainder(totalLength, pieceLength, n, 0);
    }
  }

  lemma Product(a: nat, d: nat)
    requires a > 0
    ensures a * d >= d
  {
    assert a * d == (a - 1) * d + d;
    assert (a - 1) * d >= 0;
  }

  lemma Remainder(x: nat, d: nat, q: nat, r: nat)
    requires d > 0 && r < d && x == q * d + r
    ensures x % d == r
  {
    DivisionIsUnique(d, q, r, x / d, x % d);
  }

  lemma DivisionIsUnique(d: nat, q: nat, r: nat, q': nat, r': nat)
    requires r < d && r' < d && q * d + r == q' * d + r'
    ensures r == r'
  {
    if q < q' {
      assert (q' - q) * d == q' * d - q * d;
      Product(q' - q, d);
    } else if q' < q {
      assert (q - q') * d == q * d - q' * d;
      Product(q - q', d);
    }
  }

  // With one hash per piece, every piece but the last is full.
  lemma InnerPieceFull(pieceLength: nat, totalLength: nat, n: nat, i: nat)
    requires n > 0 && OneHashPerPiece(pieceLength, totalLength, n) && i < n - 1
    ensures (i + 1) * pieceLength <= totalLength
  {
    var gap: nat := n - 2 - i;
    assert (n - 1) * pieceLength == (i + 1) * pieceLength + gap * pieceLength;
    assert gap * pieceLength >= 0;
  }

  lemma CoversOne(pieceLength: nat, totalLength: nat)
    requires pieceLength > 0 && OneHashPerPiece(pieceLength, totalLength, 1)
    ensures totalLength > 0 && (0 < totalLength % pieceLength ==> totalLength < pieceLength)
    ensures Covers(pieceLength, totalLength, 1) <==>
      0 < totalLength % pieceLength < BLOCK_SIZE && totalLength < pieceLength
  {
    hide CoversPiece;
    LastPieceCovered(pieceLength, totalLength, 1);
    assert totalLength <= pieceLength;
    if totalLength == pieceLength { Remainder(totalLength, pieceLength, 1, 0); }
  }

  lemma CoversMany(pieceLength: nat, totalLength: nat, n: nat)
    requires pieceLength > 0 && n > 1 && OneHashPerPiece(pieceLength, totalLength, n)
    ensures totalLength >= pieceLength
    ensures Covers(pieceLength, totalLength, n) <==>
      0 < totalLength % pieceLength < BLOCK_SIZE && pieceLength % BLOCK_SIZE == 0
  {
    hide CoversPiece, OneHashPerPiece;
    LastPieceCovered(pieceLength, totalLength, n);
    forall i: nat | i < n - 1
      ensures (i + 1) * pieceLength <= totalLength
      ensures CoversPiece(pieceLength, totalLength, n, i) <==> pieceLength % BLOCK_SIZE == 0
    {
      InnerPieceFull(pieceLength, totalLength, n, i);
      InnerPieceCovered(pieceLength, totalLength, n, i);
    }
    InnerPieceFull(pieceLength, totalLength, n, 0);
    assert CoversPiece(pieceLength, totalLength, n, 0) <==> pieceLength % BLOCK_SIZE == 0;
  }

  // The table covers the content exactly when the content is empty, or less than a block is left for
  // the last piece and the others, if any, are a whole number of blocks.
  lemma CoversExactlyWhen(pieceLength: nat, totalLength: nat, n: nat)
    requires pieceLength > 0 && OneHashPerPiece(pieceLength, totalLength, n)
    ensures Covers(pieceLength, totalLength, n) <==>
      totalLength == 0
      || (0 < totalLength % pieceLength < 16384 && (pieceLength % 16384 == 0 || totalLength < pieceLength))
  {
    hide CoversPiece;
    if n == 0 {
      assert n * pieceLength == 0;
    } else if n == 1 {
      hide Covers, OneHashPerPiece;
      CoversOne(pieceLength, totalLength);
    } else {
      hide Covers, OneHashPerPiece;
      CoversMany(pieceLength, totalLength, n);
    }
  }

  // Four whole pieces of 16 blocks: the last block is lost.
  lemma WholePiecesAreNotCovered()
    ensures OneHashPerPiece(262144, 1048576, 4) && !Covers(262144, 1048576, 4)
  {
    CoversExactlyWhen(262144, 1048576, 4);
  }

  // A last piece of more than one block loses a block.
  lemma LongLastPieceIsNotCovered()
    ensures OneHashPerPiece(262144, 300000, 2) && !Covers(262144, 300000, 2)
  {
    CoversExactlyWhen(262144, 300000, 2);
  }

  // The numbers of the table fit an int when the piece length does.
  lemma TableFitsInt(pieceLength: nat, totalLength: nat, n: nat, i: nat, k: nat)
    requires 0 < pieceLength <= INT_MAX && i < n && k < |Table(pieceLength, totalLength, n)[i]|
    ensures var b := Table(pieceLength, totalLength, n)[i][k];
      0 <= b.offset <= INT_MAX && 0 <= b.length <= BLOCK_SIZE
    ensures |Table(pieceLength, totalLength, n)[i]| <= 0x7fff_ffff
  {
    var count := BlockCount(pieceLength, totalLength, n, i);
    assert totalLength % pieceLength < pieceLength;
    assert count == 1 || count * BLOCK_SIZE <= pieceLength;
  }

  predicate InBlock(b: Block, x: int) {
    b.offset <= x < b.offset + b.length
  }

  // Contiguous blocks contain every byte between their ends exactly once, and no other.
  lemma {:induction false} ContiguousContains(bs: seq<Block>, from: int, to: int, x: int)
    requires Contiguous(bs, from, to) && forall j :: 0 <= j < |bs| ==> bs[j].length >= 0
    ensures from <= to
    ensures from <= x < to <==> exists j :: 0 <= j < |bs| && InBlock(bs[j], x)
    ensures forall i, j :: 0 <= i < j < |bs| && InBlock(bs[i], x) ==> !InBlock(bs[j], x)
    decreases |bs|
  {
    if bs != [] {
      var rest := bs[1..];
      assert bs == [bs[0]] + rest;
      ContiguousContains(rest, from + bs[0].length, to, x);
      assert forall j :: 0 <= j < |rest| ==> rest[j] == bs[j + 1];
      if InBlock(bs[0], x) {
      } else if j :| 0 <= j < |rest| && InBlock(rest[j], x) {
        assert InBlock(bs[j + 1], x);
      }
    }
  }
}
