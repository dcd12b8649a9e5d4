# Verified model of the UFO-Torrent client

UFO-Torrent downloads a file from BitTorrent peers. This project models the parts of it that decide
whether the right bytes end up in the file, and proves what they promise:

- **Download.** `PieceManager` and `Piece`: pieces move from missing through ongoing to have, blocks are
  requested, re-requested after ten seconds, stored, checked against the SHA-1 hash of their piece and
  written to the file. `Download.dfy` is the machine, one function for every public method;
  `PieceManager.dfy` and `Piece.dfy` are the classes, each method of which is proved to make the step of
  the machine; `Receipts.dfy` says what a block that arrives does, and `DownloadInvariant.dfy`,
  `DownloadRuns.dfy` and `DownloadFile.dfy` prove what holds over every run, whatever the peers send.
  `Deliveries.dfy` splits the receipt of a block at its two lock sections. `BlockTable.dfy` is the table of
  blocks a torrent is cut into, and `DownloadCoverage.dfy` shows what happens to the download when the table
  does not cover the content. `HonestDownload.dfy` and `CompletableDownload.dfy` show that what is right is
  accepted: from peers that deliver the bytes of the content no piece is thrown away, and a download can
  complete exactly when the table covers the content.
- **SHA-1.** The unrolled transform with rotating roles, a 16-word ring for the schedule and words of 64
  bits (`Sha1.dfy`, `Sha1Words.dfy`) computes the hash of FIPS 180-4 (`Fips180.dfy`), however a message is
  split into updates; its hexadecimal text decodes back to the digest (`Hex.dfy`), and the digest of the
  example in the standard comes out as printed there (`Sha1Example.dfy`).
- **Bencode.** The stream decoder and the accumulating visitor of `libs/bencode` and the substring decoder
  and second visitor of `src/bencode`: the exact language the stream decoder accepts (`BencodeSyntax.dfy`,
  `StreamGrammar.dfy`), round trips, canonical form, and exactly where the two encoders agree and where the
  two decoders agree on what the stream decoder accepts (`SubstringGrammar.dfy`). The substring decoder has
  a larger language of its own, exact as well (`LooseGrammar.dfy`), and accepts some truncated encodings
  (`SubstringCuts.dfy`).
  `Search.dfy` is the recursive `getValue`.
- **Queue and shutdown.** The blocking queue as a protocol of lock, wait and notify steps, and the worker
  and main threads over it up to the end of `terminate()`. `ClientRuns.dfy` proves over whole runs who
  leaves when and which peers reach the queue, and `WholeRun.dfy` has a run in which everybody returns.
- **Peers.** Length-prefixed messages written to a byte stream and read back from fragments of it
  (`Framing.dfy`), the integers inside request and piece messages (`PeerPayloads.dfy`), what a worker does
  with each message and what its state says about its past (`PeerConnection.dfy`, `PeerMessages.dfy`,
  `PeerHistory.dfy`), and the download as any number of workers drive it with whatever they receive,
  interleaved at every call on the piece manager (`PeerSession.dfy`) or at every lock section of the receipt
  of a block (`SplitSession.dfy`).

Code that changes state is a class or a loop proved against functions; the laws are lemmas about those
functions. Bytes are integers from 0 to 255. Operations that throw in the source return an error value.
The clock, the bytes a connection delivers, the interleaving of threads, and whether a call on a
connection returns or throws are parameters.

Names: in the decoders, `plain` restricts the stream decoder to integers in [0, INT64_MAX].
`Describes(c, content)` says that the torrent `c` is made from `content`: its pieces cover it, and each
hash is the SHA-1 digest of its piece. Nothing is assumed about SHA-1; the results about the file say that
it is the content or that the run itself has written a collision, two different strings with one digest.
`Sound` is the invariant of the download.

## Model

| member | source | states |
|---|---|---|
| `PieceManager.PieceManager.NextRequest` | src/network_part/PieceManager.cpp:179-214 | The method makes exactly the step `Next`: re-issue of the first expired request, else the next block of the first ongoing piece, else the start of a missing piece; it returns the block of that step and keeps the invariant |
| `PieceManager.PieceManager.ExpiredRequest` | src/network_part/PieceManager.cpp:221-240 | The loop finds the first request of an advertised piece that has waited 10 time units, restarts its clock and changes nothing else |
| `PieceManager.PieceManager.NextOngoing` | src/network_part/PieceManager.cpp:247-266 | The loop continues the first ongoing advertised piece that has a missing block, and appends the request |
| `PieceManager.PieceManager.CountPieces` | src/network_part/PieceManager.cpp:278-286 | Only the asking peer is counted: exactly its advertised missing pieces, each with count one |
| `PieceManager.PieceManager.GetRarestPiece` | src/network_part/PieceManager.cpp:272-304 | The lowest-indexed missing piece the peer advertises moves from missing to ongoing; nothing happens when there is none |
| `PieceManager.PieceManager.BlockReceived` | src/network_part/PieceManager.cpp:314-377 | The method makes exactly the step `Receive` and throws exactly when it does, when no other worker steps in between; unsolicited, duplicate and bad blocks included |
| `PieceManager.PieceManager.RemoveRequest` | src/network_part/PieceManager.cpp:318-333 | The first request that matches is removed, and nothing else |
| `PieceManager.PieceManager.FinishPiece` | src/network_part/PieceManager.cpp:351-374 | A complete piece is written, taken from ongoing and added to have when its digest matches, and its blocks are reset otherwise |
| `PieceManager.PieceManager.Write` | src/network_part/PieceManager.cpp:382-386 | The data of the blocks is written at index times piece length |
| `PieceManager.PieceManager.IsComplete` | src/network_part/PieceManager.cpp:103-108 | The comparison of sizes is completion of the machine |
| `PieceManager.PieceManager.AddPeer` | src/network_part/PieceManager.cpp:115-120 | The bit field of the peer is stored; the invariant is kept |
| `PieceManager.PieceManager.UpdatePeer` | src/network_part/PieceManager.cpp:131-145 | The piece is added to the peer's bit field; it throws exactly for an unknown peer |
| `PieceManager.PieceManager.RemovePeer` | src/network_part/PieceManager.cpp:151-171 | The peer is removed; it throws exactly for an unknown peer while the download is incomplete |
| `PieceManager.PieceManager.constructor` | src/network_part/PieceManager.cpp:21-38 | The torrent is the piece length and the pieces string cut into hashes; the new object satisfies the invariant: every piece is missing, the blocks are the table, the file has its final length |
| `PieceManager.DownloadFromScratch` | src/network_part/PieceManager.cpp:21-386 | From the constructor on, for every sequence of actions of peers: when the download is complete the file is the content that the torrent describes, or one of the actions has written data that collides under SHA-1 with the piece it was taken for |
| `PieceManager.TorrentFileDescribes` | src/network_part/PieceManager.cpp:21-58 | The constructor, given the digests of the slices of a content one after the other as the pieces string, has the torrent made from this content, and that torrent describes it |
| `PieceManager.NothingIsEverWritten` | src/network_part/PieceManager.cpp:30-37 | In every run on a torrent of zero bytes the file stays empty, since seeking to its last byte has already failed |
| `PieceManager.RemovePieceIndices` | src/network_part/PieceManager.cpp:299-301 | Erasing a piece from a list of pointers erases its index, and only that, from the list of indices |
| `Piece.Piece.Reset` | src/network_part/Piece.cpp:26-29 | Every block is missing again and keeps everything else |
| `Piece.Piece.NextRequest` | src/network_part/Piece.cpp:37-48 | The first missing block becomes pending; no other block changes |
| `Piece.Piece.BlockReceived` | src/network_part/Piece.cpp:56-70 | The first block at the offset is retrieved with the data; it throws exactly when no block starts there |
| `Piece.Piece.IsComplete` | src/network_part/Piece.cpp:78-82 | True exactly when every block is retrieved |
| `Piece.Piece.GetData` | src/network_part/Piece.cpp:101-107 | The data of the blocks in the order of the blocks |
| `Piece.Piece.IsHashMatching` | src/network_part/Piece.cpp:88-92 | True exactly when the FIPS 180-4 digest of the concatenated blocks is the stored hash |
| `Piece.DeliveriesCommute` | src/network_part/Piece.cpp:56-70 | The same deliveries at distinct offsets, in any order, give the same piece |
| `Piece.StoreAllAt` | src/network_part/Piece.cpp:56-70 | What any sequence of deliveries at distinct offsets leaves in each block |
| `DownloadInvariant.StepKeeps` | src/network_part/PieceManager.cpp:115-377 | Every action keeps: each piece in exactly one list, statuses that agree with the list, unique requests that name pending blocks of ongoing pieces, and only first blocks pending without a request |
| `DownloadInvariant.NextKeeps` | src/network_part/PieceManager.cpp:179-304 | The same for a request, on each of its three paths |
| `DownloadInvariant.ReceiveKeeps` | src/network_part/PieceManager.cpp:314-377 | The same for a good, bad, duplicate or unsolicited block |
| `DownloadInvariant.WithoutFirstOf` | src/network_part/PieceManager.cpp:318-333 | Removing the request of a delivered block leaves every other request and none for that block |
| `Receipts.RejectedExactlyWhen` | src/network_part/PieceManager.cpp:314-345 | A block is refused exactly when its piece is not ongoing or no block of it starts there, and then nothing changes |
| `Receipts.StoredUntilWhole` | src/network_part/PieceManager.cpp:318-347 | A block that was asked for is stored and its request goes, no other; as long as another block of the piece is outstanding nothing else changes |
| `Receipts.LastBlockDecides` | src/network_part/PieceManager.cpp:318-374 | The last block outstanding decides: with the digest of the torrent the piece is had, no longer ongoing and written at its place, otherwise it stays ongoing with every block missing again; no other piece changes |
| `DownloadRuns.InitialSound` | src/network_part/PieceManager.cpp:28 | The state after construction satisfies the invariant |
| `DownloadRuns.Forward` | src/network_part/PieceManager.cpp:299-363 | In every run pieces only move from missing to ongoing to have, and the have list only grows |
| `DownloadRuns.NeverWrittenTwice` | src/network_part/PieceManager.cpp:357-363 | In every run of atomic deliveries no piece is written twice |
| `DownloadRuns.CompleteMeansAllHad` | src/network_part/PieceManager.cpp:103-108 | Equal sizes mean that every piece is in the have list, and the converse |
| `DownloadRuns.CompleteMeansAllRetrieved` | src/network_part/PieceManager.cpp:103-108 | Completion is every block of every piece being retrieved and no piece without blocks being outside the have list, both ways |
| `DownloadRuns.NeverCompleteWithEmptyPiece` | src/network_part/PieceManager.cpp:67-73 | In every run with a piece that has no blocks the download is never complete |
| `DownloadRuns.CompletionIsStable` | src/network_part/PieceManager.cpp:103-108 | Once complete, complete after every further action |
| `DownloadRuns.IssuedBlockIsSound` | src/network_part/PieceManager.cpp:179-304 | A block handed out on any path is pending, in an ongoing piece that is not had, and advertised by the peer; a started piece is the lowest missing one the peer advertises |
| `DownloadRuns.OverdueComesFirst` | src/network_part/PieceManager.cpp:204-240 | For a known peer while pieces are missing: when some advertised request has waited 10 time units, the first such request is issued again, whatever else there is to ask for; only its clock changes |
| `DownloadRuns.OngoingComesSecond` | src/network_part/PieceManager.cpp:204-266 | When there is none, the first missing block of the first ongoing advertised piece that has one is issued, and a request for it is appended |
| `DownloadRuns.StartedComesThird` | src/network_part/PieceManager.cpp:204-304 | When there is neither, the lowest missing piece that the peer advertises is started with its first block; when that piece has no blocks nothing is issued |
| `DownloadRuns.NothingAdvertised` | src/network_part/PieceManager.cpp:204-214 | When there is no such piece either, nothing is issued and nothing changes |
| `DownloadRuns.NothingForStrangers` | src/network_part/PieceManager.cpp:184-197 | Nothing is issued and nothing changes when no piece is missing or the peer is not known |
| `DownloadRuns.NothingToIssue` | src/network_part/PieceManager.cpp:174-177 | When pieces are missing and a known peer gets no block, it advertises no missing piece or the lowest one it advertises has no blocks, no ongoing one with a missing block, and no request that has expired |
| `DownloadRuns.IssuesAreSpaced` | src/network_part/PieceManager.cpp:217-240 | In every run two issues of a block without a reset of its piece between them are at least 10 time units apart, even when the clock runs backwards |
| `DownloadRuns.RetrievedIsNotIssued` | src/network_part/Piece.cpp:37-69 | In every run a retrieved block stays retrieved and is not issued until its piece is reset |
| `DownloadRuns.ForgottenIsFirst` | src/network_part/PieceManager.cpp:205-210 | A pending block without a request can only be the first of its piece |
| `DownloadRuns.StartForgets` | src/network_part/PieceManager.cpp:209 | Starting a piece always makes such a block |
| `DownloadRuns.ForgottenIsNotIssued` | src/network_part/PieceManager.cpp:205-266 | In every run such a block is never re-requested until it is delivered |
| `DownloadRuns.StepKeepsShape` | src/network_part/Piece.cpp:26-69 | No action changes the offsets, lengths or number of the blocks |
| `DownloadFile.WriteSlice` | src/network_part/PieceManager.cpp:382-386 | Writing a piece puts it where it belongs, keeps the length of the file and leaves the regions of all other pieces alone |
| `DownloadFile.TorrentOfDescribes` | src/network_part/PieceManager.cpp:48-96 | Every content has a torrent that describes it, for every piece length |
| `DownloadFile.StepKeepsFile` | src/network_part/PieceManager.cpp:314-386 | Every action that writes no collision keeps the regions of all had pieces |
| `DownloadFile.RunKeepsFile` | src/network_part/PieceManager.cpp:314-386 | In every run, as long as no collision is written, every piece in the have list keeps its region of the file intact |
| `DownloadFile.CompleteDownloadIsContent` | src/network_part/PieceManager.cpp:103-386 | In every run, a complete download has the content in the file or the run has written a collision |
| `DownloadFile.StepCounts` | src/network_part/PieceManager.cpp:179-377 | A step without a hash mismatch lowers the number of blocks to retrieve by exactly one on a first delivery and leaves it as it is otherwise |
| `DownloadFile.RunCounts` | src/network_part/PieceManager.cpp:179-377 | In a run without mismatches first deliveries plus blocks left is constant |
| `DownloadFile.CompleteAfterAllDeliveries` | src/network_part/PieceManager.cpp:103-377 | Such a run is complete exactly when every block has been delivered a first time and no piece without blocks is outside the have list |
| `HonestDownload.DataAt` | src/network_part/Piece.cpp:101-107 | The data of complete contiguous blocks has the data of each block exactly where the block lies in the piece, and nothing besides |
| `HonestDownload.DataIsPart` | src/network_part/Piece.cpp:101-107 | When each block carries its part of a piece, the data is the piece |
| `HonestDownload.HonestNeverMismatches` | src/network_part/PieceManager.cpp:314-377 | From the constructor on, in every run in which each block that is stored carries the bytes of the content at its place, no piece fails its hash check and no collision is written |
| `HonestDownload.HonestCompletesExactlyWhen` | src/network_part/PieceManager.cpp:103-386 | Such a run is complete exactly when every block has been delivered a first time, and then the file is the content, without exception for collisions |
| `CompletableDownload.CanComplete` | src/network_part/PieceManager.cpp:21-386 | For every content and torrent whose table covers it there is such a run that completes the download and leaves the content in the file |
| `CompletableDownload.CompletableExactlyWhen` | src/network_part/PieceManager.cpp:60-386 | For every torrent made from a content, a run that completes the download with blocks of the right lengths and without writing a collision exists exactly when the table of blocks covers the content |
| `Deliveries.AloneIsReceive` | src/network_part/PieceManager.cpp:314-377 | The lock sections and the steps between them, run by one worker alone, are the atomic step of the machine |
| `Deliveries.MovesOnlyItself` | src/network_part/PieceManager.cpp:314-376 | A worker in blockReceived leaves its place there only by its own next step, whatever the others do |
| `Deliveries.CompleteWhenApart` | src/network_part/PieceManager.cpp:318-364 | In every run of any number of workers, lock section by lock section, in which nobody is in blockReceived for a piece that another worker has found complete and is finishing: when the download is complete the file is the content or a collision has been written. Deliveries of different blocks of one piece may overlap |
| `Deliveries.OverlapCompletesEarly` | src/network_part/PieceManager.cpp:345-364 | Two overlapping deliveries of one piece put it on the have list twice: a run of any two or more workers, for every content of 16385 bytes that does not end in zero, that is complete with the other piece missing and the file wrong, and that writes no collision |
| `Deliveries.OneWorkerIsSafe` | src/network_part/PieceManager.cpp:314-377 | With at most one worker every run that completes leaves the content or has written a collision, for every content |
| `Deliveries.SafeExactlyWhen` | src/network_part/PieceManager.cpp:345-364 | For those contents that can be said of n workers exactly when n is at most one |
| `BlockTable.SplitPieceHashes` | src/network_part/PieceManager.cpp:48-58 | The loop cuts the string into `HashesOf`, the last one possibly short; `SplitJoined` says what they are |
| `BlockTable.SplitJoined` | src/network_part/PieceManager.cpp:48-58 | Any hashes of 20 bytes, joined to one string, are what the string is split into |
| `BlockTable.InitiatePieces` | src/network_part/PieceManager.cpp:60-96 | The nested loops build the table: for each hash a piece, with the count, offsets and lengths of its blocks |
| `BlockTable.TableIsFresh` | src/network_part/PieceManager.cpp:80-88 | Every block is missing and no two blocks of a piece start at the same offset |
| `BlockTable.TableReaches` | src/network_part/PieceManager.cpp:66-88 | The blocks of every piece are contiguous from its start and of 16384 bytes but for the last; those of an inner piece reach to the last whole block, those of the last piece to its end when less than a block is left and otherwise to one block before it |
| `BlockTable.TableHasBlocks` | src/network_part/PieceManager.cpp:67-73 | Every piece has a block exactly when pieces are no shorter than a block or there is at most one |
| `BlockTable.InnerPieceCovered` | src/network_part/PieceManager.cpp:67-88 | A piece before the last is tiled without gap or overlap exactly when the piece length is a multiple of 16384 |
| `BlockTable.LastPieceCovered` | src/network_part/PieceManager.cpp:71-86 | The last piece is tiled exactly when what is left for it is positive and less than one block |
| `BlockTable.CoversExactlyWhen` | src/network_part/PieceManager.cpp:60-96 | The exact condition under which the whole table covers the content |
| `BlockTable.ContiguousContains` | src/network_part/PieceManager.cpp:79-88 | Contiguous blocks contain every byte between their ends exactly once, and no other |
| `DownloadCoverage.CoveredByLength` | src/network_part/PieceManager.cpp:67-88 | A piece is tiled exactly when its blocks together are as long as its part of the content |
| `DownloadCoverage.WrongLengthCollides` | src/network_part/PieceManager.cpp:351-364 | In a run in which peers deliver blocks of exactly the length asked for, writing a piece that is not tiled writes a collision: its data has the digest of the piece and another length |
| `DownloadCoverage.UncoveredNeverCompletes` | src/network_part/PieceManager.cpp:60-108 | When the table does not cover the content, such a run, from the constructor on, completes only by having written a collision |
| `BlockTable.WholePiecesAreNotCovered` | src/network_part/PieceManager.cpp:71-86 | A content of four whole pieces is not covered |
| `BlockTable.LongLastPieceIsNotCovered` | src/network_part/PieceManager.cpp:71-86 | Nor is one whose last piece is longer than a block |
| `BlockTable.TableFitsInt` | src/network_part/PieceManager.cpp:67-87 | Offsets, lengths and counts of the table are ints whenever the piece length is |
| `Bitfield.SetChangesOneBit` | src/network_part/utils.cpp:88-93 | Setting a bit of a byte changes what that bit says and no other |
| `Bitfield.WithPieceAddsOne` | src/network_part/utils.cpp:78-93 | setPiece adds exactly one index to what hasPiece reports |
| `Bitfield.HasPieceReads` | src/network_part/utils.cpp:78-83 | Piece i is advertised exactly when bit 7 - i mod 8 of byte i / 8 is one |
| `Sha1Wide.Rol1Wide` | libs/crypto/sha1.cpp:28 | The rotation macro by 1 on 64 bits is the rotation of the model on both halves |
| `Sha1Wide.Rol5Wide` | libs/crypto/sha1.cpp:28 | The same by 5 |
| `Sha1Wide.Rol30Wide` | libs/crypto/sha1.cpp:28 | The same by 30 |
| `Sha1Wide.ChooseWide` | libs/crypto/sha1.cpp:32-33 | The choice expression on 64 bits acts on the halves as the model does |
| `Sha1Wide.MixWide` | libs/crypto/sha1.cpp:34-36 | So does the parity expression |
| `Sha1Wide.MajorityWide` | libs/crypto/sha1.cpp:35 | So does the majority expression |
| `Sha1Wide.SumWide` | libs/crypto/sha1.cpp:32-36 | The low half of the 64-bit sum of a round is the 32-bit sum of the low halves |
| `Sha1Words.ChooseIsCh` | libs/crypto/sha1.cpp:32-33 | The expression of rounds 0 to 19 is Ch of FIPS 180-4 on the low halves |
| `Sha1Words.MajorityIsMaj` | libs/crypto/sha1.cpp:35 | The expression of rounds 40 to 59 is Maj |
| `Sha1Words.RoundOnLowHalves` | libs/crypto/sha1.cpp:32-36 | A macro that updates two words in place is one round of the standard with the roles moved on by one, whatever the high halves hold |
| `Sha1Words.NextWordIsScheduled` | libs/crypto/sha1.cpp:29 | The low half of a new ring word is the schedule recurrence of section 6.1.2 |
| `Sha1.RingAdvances` | libs/crypto/sha1.cpp:29 | Replacing one slot of the 16-word ring moves the window of the 80-word schedule on by one |
| `Sha1.R0` | libs/crypto/sha1.cpp:32 | A round with a word of the block |
| `Sha1.R1` | libs/crypto/sha1.cpp:33 | A round of the same kind with a word of the ring |
| `Sha1.R2` | libs/crypto/sha1.cpp:34 | A parity round |
| `Sha1.R3` | libs/crypto/sha1.cpp:35 | A majority round |
| `Sha1.R4` | libs/crypto/sha1.cpp:36 | A parity round with the last constant |
| `Sha1.RunRounds0To19` | libs/crypto/sha1.cpp:155-174 | The unrolled rounds 0 to 19 are those of the standard |
| `Sha1.RunRounds20To39` | libs/crypto/sha1.cpp:175-194 | Rounds 20 to 39 |
| `Sha1.RunRounds40To59` | libs/crypto/sha1.cpp:195-214 | Rounds 40 to 59 |
| `Sha1.RunRounds60To79` | libs/crypto/sha1.cpp:215-234 | Rounds 60 to 79 |
| `Sha1.BufferToBlock` | libs/crypto/sha1.cpp:248-258 | The low halves of the block are the big-endian words of the buffer, sign-extended bytes included |
| `Sha1.SHA1.Transform` | libs/crypto/sha1.cpp:144-245 | The low halves of the digest become the hash step of section 6.1.2, for any high halves, and the counter moves on modulo 2^64 |
| `Sha1.SHA1.Update` | libs/crypto/sha1.cpp:44-64 | The object now stands for the longer message: whole blocks hashed, the rest, under 64 bytes, in the buffer |
| `Sha1.Read` | libs/crypto/sha1.cpp:261-266 | At most max bytes, and a good stream exactly when all were there |
| `Sha1.LengthInBits` | libs/crypto/sha1.cpp:74-98 | The two last words are the length in bits modulo 2^64, although the block counter wraps |
| `Sha1.PaddedOneBlock` | libs/crypto/sha1.cpp:76-98 | With at most 55 bytes left the padding of section 5.1.1 is one block |
| `Sha1.PaddedTwoBlocks` | libs/crypto/sha1.cpp:87-98 | Otherwise it is two, the second of zeros and the length |
| `Fips180.LemmaPaddedLength` | libs/crypto/sha1.cpp:76-99 | The padded message fills whole blocks, so hashing block by block leaves nothing out |
| `Sha1.SHA1.HashPadding` | libs/crypto/sha1.cpp:71-99 | The digest is that of the padded message, in both cases |
| `Sha1.SHA1.Final` | libs/crypto/sha1.cpp:71-113 | The result is the hexadecimal FIPS 180-4 digest of everything passed to update, and the object is back in its initial state |
| `Sha1.HashString` | libs/crypto/sha1.cpp:269-274 | The hexadecimal digest of one string |
| `Sha1.HashPieces` | libs/crypto/sha1.cpp:44-113 | However a message is split into updates, the digest is that of the whole |
| `Sha1.HashBytes` | src/network_part/Piece.cpp:88-92 | hexDecode of the result of sha1 is the 20-byte digest itself |
| `Sha1Example.AbcDigest` | libs/crypto/sha1.cpp:32-134 | The digest that the hash is proved to compute is, for the three characters abc, the one that FIPS 180 gives as its example |
| `Sha1Example.AbcPrinted` | libs/crypto/sha1.cpp:100-112 | The same in hexadecimal |
| `Hex.HexDecode` | src/network_part/utils.cpp:39-50 | The loop reads pairs of characters as strtol does, odd lengths and other characters included |
| `Hex.PairIsStrtol` | src/network_part/utils.cpp:45-46 | Every pair, well-formed or not, is read as the number of strtol cast to a char: white space, a sign and digits while they last, modulo 256 |
| `Hex.RoundTrip` | src/network_part/utils.cpp:39-50 | Bytes printed in hexadecimal are read back unchanged |
| `Hex.Printed8IsEncode` | libs/crypto/sha1.cpp:101-107 | Eight padded digits of a word are its four bytes in hexadecimal, most significant first |
| `Bencode.InsertMembers` | libs/bencode/BDictionary.cpp:111-113 | Assignment to a key of the map gives that key its value and changes no other |
| `Bencode.InsertKeepsSorted` | libs/bencode/BDictionary.cpp:29-33 | Keys stay strictly increasing in the order of the comparator |
| `Bencode.InsertLength` | libs/bencode/BDictionary.cpp:111-113 | Assignment adds at most the encoding of the new entry |
| `Bencode.LessExactlyWhen` | libs/bencode/BDictionary.cpp:29-33 | The comparison holds exactly when the first string is a proper prefix of the second or smaller at the first difference |
| `Bencode.WellFormedKeysAscend` | libs/bencode/BDictionary.cpp:24-33 | In every well-formed item the keys of every dictionary are in that order |
| `StreamDecoder.InputStream.ReadUpTo` | libs/bencode/Utils.cpp:27-34 | The text before the sentinel, which stays in the stream; false exactly when there is none |
| `StreamDecoder.InputStream.ReadUntil` | libs/bencode/Utils.cpp:50-59 | The text up to and with the last character; false exactly when there is none |
| `StreamDecoder.Decoder.DecodeNext` | libs/bencode/Decoder.cpp:66-89 | Accepts exactly what `DecodeItem` accepts, with its value, and leaves the stream where it says |
| `StreamDecoder.Decoder.DecodeDictionary` | libs/bencode/Decoder.cpp:125-131 | The same from a d on |
| `StreamDecoder.Decoder.DecodeDictionaryItems` | libs/bencode/Decoder.cpp:137-148 | The loop inserts entries up to the closing e, the last value of a key winning |
| `StreamDecoder.Decoder.DecodeDictionaryKey` | libs/bencode/Decoder.cpp:153-165 | An item that must be a string |
| `StreamDecoder.Decoder.DecodeList` | libs/bencode/Decoder.cpp:251-257 | The same from an l on |
| `StreamDecoder.Decoder.DecodeListItems` | libs/bencode/Decoder.cpp:263-271 | The loop appends items up to the closing e |
| `StreamDecoder.Decoder.DecodeInteger` | libs/bencode/Decoder.cpp:193-236 | The text to the first e, checked against the pattern and stored as a 64-bit integer |
| `StreamDecoder.Decoder.DecodeString` | libs/bencode/Decoder.cpp:286-292 | A length, a colon and that many characters |
| `StreamDecoder.Decoder.ReadStringLength` | libs/bencode/Decoder.cpp:297-317 | Digits only, leading zeros allowed, below 2^64 |
| `StreamDecoder.Decoder.ReadStringOfGivenLength` | libs/bencode/Decoder.cpp:322-336 | Fails exactly when fewer characters are left |
| `StreamDecoder.Decoder.Decode` | libs/bencode/Decoder.cpp:51-57 | Accepts exactly an input that is one item and nothing else |
| `StreamDecoding.RoundTrip` | libs/bencode/Decoder.cpp:66-336 | For every item tree and every suffix, decoding the encoding followed by the suffix gives the item and leaves the suffix |
| `StreamDecoding.PrefixFree` | libs/bencode/Encoder.cpp:33-72 | Encoding is injective and no encoding is a proper prefix of another |
| `StreamDecoding.SplitStream` | libs/bencode/Decoder.cpp:59-89 | Encodings written one after another are split back by successive decodes |
| `StreamDecoding.DecodeExtends` | libs/bencode/Decoder.cpp:59-89 | Input after an item does not change what was decoded, for every accepted input |
| `StreamDecoding.TruncatedIsRejected` | libs/bencode/Decoder.cpp:51-348 | No proper prefix of an encoding is accepted |
| `StreamDecoding.DecodedIsCanonical` | libs/bencode/Decoder.cpp:66-336 | Every decoded value has strictly increasing keys at every level, 64-bit integers, and an encoding no longer than the text read |
| `StreamDecoding.DecodedKeysAscend` | libs/bencode/Decoder.cpp:136-148 | The keys of every decoded dictionary, nested ones included, are in lexicographic order |
| `StreamDecoding.Canonicalisation` | libs/bencode/Decoder.cpp:51-57 | Re-encoding any accepted input is accepted, decodes to the same value, is no longer, and is a fixed point |
| `StreamDecoding.ClampedNumeralIsShort` | libs/bencode/Decoder.cpp:222-235 | Signs, minus zero and out-of-range numbers never make the numeral longer |
| `StreamDecoding.ClampIsNearest` | libs/bencode/Decoder.cpp:218-240 | The integer stored is the 64-bit integer nearest to the number written |
| `StreamDecoding.LengthAcceptedExactlyWhen` | libs/bencode/Decoder.cpp:286-345 | Any digits before a colon are a length, exactly when the number is below 2^64 and the text has as many characters; these are the string and what follows is left |
| `StreamGrammar.LanguageIsExact` | libs/bencode/Decoder.cpp:66-336 | The decoder reads a value from the front of its input exactly when that front is a well-written text that stands for the value: optional signs, lengths with leading zeros, keys in any order and repeated, and nothing else |
| `StreamGrammar.DecodedIsWritten` | libs/bencode/Decoder.cpp:66-336 | Soundness: whatever is accepted has a syntax tree that writes exactly the text read |
| `StreamGrammar.WrittenIsDecoded` | libs/bencode/Decoder.cpp:66-336 | Completeness: whatever is well written is accepted with its meaning, before any suffix |
| `StreamGrammar.NumeralsAccepted` | libs/bencode/Decoder.cpp:222-231 | The integer pattern accepts exactly an optional sign and the numeral of a natural number |
| `StreamGrammar.KeysAreReordered` | libs/bencode/Decoder.cpp:136-148 | A text whose keys are out of order is decoded and encoded again with the longer but smaller key first |
| `BencodeSyntax.LastWins` | libs/bencode/Decoder.cpp:141-146 | A decoded dictionary is sorted and maps exactly the keys written, each to the value written last |
| `StreamEncoder.Encoder.Encode` | libs/bencode/Encoder.cpp:33-36 | The encoding of the item is appended to what earlier calls accumulated, all of which is returned |
| `StreamEncoder.Encoder.VisitDictionary` | libs/bencode/Encoder.cpp:38-47 | The loop appends every key and value in order between d and e |
| `StreamEncoder.Encoder.VisitList` | libs/bencode/Encoder.cpp:56-63 | The loop appends every item in order between l and e |
| `StreamEncoder.Encoder.VisitInteger` | libs/bencode/Encoder.cpp:49-54 | Appends the numeral between i and e |
| `StreamEncoder.Encoder.VisitString` | libs/bencode/Encoder.cpp:65-72 | Appends length, colon and text |
| `StreamEncoder.AccumulatedEncodingSplits` | libs/bencode/Encoder.cpp:33-36 | What repeated calls on one encoder return is split back into all items encoded so far |
| `SubstringDecoder.FirstDigit` | src/bencode/decode.cpp:23-32 | The loop finds the first run of digits |
| `SubstringDecoder.DecodeInt` | src/bencode/decode.cpp:34-45 | The integer to the first e, with the number of characters |
| `SubstringDecoder.DecodeString` | src/bencode/decode.cpp:47-62 | The string, with the number of characters; each error case, the sum that exceeds an int included |
| `SubstringDecoder.DecodeList` | src/bencode/decode.cpp:64-79 | The loop over an index terminates and reads what `SubItems` reads; a missing e is accepted |
| `SubstringDecoder.DecodeDict` | src/bencode/decode.cpp:81-103 | The same for entries; offset 1 for the empty string |
| `SubstringDecoder.DecodeValue` | src/bencode/decode.cpp:105-130 | Terminates on strictly shorter substrings; accepts exactly what `SubItem` accepts, with its value and length |
| `SubstringDecoder.Decode` | src/bencode/decode.cpp:132-134 | The value, whatever follows it |
| `SubstringDecoding.StringsAgree` | src/bencode/decode.cpp:47-62 | On inputs an int can index the two string parsers are the same function, failures included |
| `SubstringDecoding.IntegersAgreeExactlyWhen` | src/bencode/decode.cpp:34-45 | An integer the stream decoder accepts is read alike exactly when it lies in [0, INT64_MAX] |
| `SubstringDecoding.DecodersAgree` | src/bencode/decode.cpp:64-130 | What the stream decoder accepts when it is restricted to integers in [0, INT64_MAX], the substring decoder reads as the same value of the same length |
| `SubstringGrammar.WrittenIsSub` | src/bencode/decode.cpp:34-130 | On every text that the stream decoder accepts the substring decoder fails exactly when some number has a magnitude of 2^64 or more, and otherwise reads the same text with each number cast to an unsigned 64-bit integer |
| `SubstringGrammar.CastIsModulo` | src/bencode/decode.cpp:13-45 | A number is cast to the unsigned one of 64 bits that it is congruent to modulo 2^64 |
| `SubstringGrammar.DecodersAgreeExactlyWhen` | src/bencode/decode.cpp:34-130 | It reads the same value of the same length as the stream decoder exactly when every number has a magnitude below 2^64 and every number that no later pair overwrites lies in [0, INT64_MAX] |
| `SubstringGrammar.AgreeWithoutRepeats` | src/bencode/decode.cpp:34-130 | Without repeated keys they agree exactly when every number lies in [0, INT64_MAX] |
| `SubstringGrammar.OverwrittenNumberAgrees` | src/bencode/decode.cpp:95-98 | A concrete text with a negative number on which they agree, because a later pair overwrites it |
| `SubstringGrammar.NegativeNumberDisagrees` | src/bencode/decode.cpp:34-45 | A concrete number on which they disagree |
| `SubstringDecoding.SubRoundTrip` | src/bencode/decode.cpp:105-130 | So it too gives back what the library encodes |
| `SubstringCuts.CutIsExact` | src/bencode/decode.cpp:64-103 | Of any proper prefix of the encoding of any item, of up to INT_MAX characters, the substring decoder reads everything or fails: it accepts exactly when the prefix ends after a whole number of items or entries of a list or dictionary, or inside an item or value that is itself accepted, and the value read is the one given |
| `SubstringCuts.WholeIsRead` | src/bencode/decode.cpp:106-130 | Of a whole encoding, in a text of up to INT_MAX characters, it reads the item, with its negative integers cast, and leaves what follows |
| `SubstringCuts.TruncatedListIsAccepted` | src/bencode/decode.cpp:64-80 | In particular a list cut just before its closing e is read as the list, where the stream decoder rejects it |
| `LooseGrammar.ReadIsValid` | src/bencode/decode.cpp:34-130 | Whatever the substring decoder accepts has a syntax tree that writes it: numbers with a sign and leading zeros below 2^64, lengths up to INT_MAX, lists and dictionaries with or without their closing e |
| `LooseGrammar.ValidIsRead` | src/bencode/decode.cpp:34-130 | Whatever such a tree writes is accepted with its meaning; when an e is missing, only at the end of the input |
| `LooseGrammar.LanguageIsExact` | src/bencode/decode.cpp:34-130 | The substring decoder reads a value from the front of a text exactly when such a tree writes the front and stands for the value |
| `SubstringEncoder.EncodeValue` | src/bencode/encode.cpp:49-52 | Returns what `SubEncode` says and throws exactly when it says so |
| `SubstringEncoder.EncodeDictionary` | src/bencode/encode.cpp:23-35 | The loop appends every key and value, or throws |
| `SubstringEncoder.EncodeList` | src/bencode/encode.cpp:37-46 | The loop appends every item, or throws |
| `SubstringEncoder.SubEncodeIs` | src/bencode/encode.cpp:12-47 | It throws exactly when some text or key is empty; otherwise it writes the library's encoding of the tree with every integer cut to an int |
| `SubstringEncoder.EncodersAgreeExactlyWhen` | src/bencode/encode.cpp:12-47 | The two encoders write the same text exactly when no text is empty and every integer is an int |
| `Search.DictionaryGetValue` | libs/bencode/BDictionary.cpp:192-219 | The recursive search terminates and returns the first match in the preorder flattening |
| `Search.ListGetValue` | libs/bencode/BList.cpp:181-193 | The same in a list, where only dictionaries directly inside it are entered |
| `Search.FirstMatchIsFirst` | libs/bencode/BDictionary.cpp:192-219 | The result is the value at the first position of the key, and null exactly when the flattening has no such key |
| `Search.FoundExactlyWhen` | libs/bencode/BDictionary.cpp:192-220 | The search finds something exactly when the key is in the dictionary, in one inside a value of it, or in one directly inside a list that is a value, at any depth |
| `Search.FirstEntryDecides` | libs/bencode/BDictionary.cpp:192-220 | The first entry that has the key, or below which it can be found, decides the result: its value, or what the search below it gives |
| `Search.FirstDictionaryDecides` | libs/bencode/BList.cpp:181-193 | In a list the first dictionary in which the key can be found decides |
| `Search.CurrentLevelFirstExactlyWhen` | libs/bencode/BDictionary.cpp:184-219 | The documented order, current level first, is what the search does exactly when the first entry with the key among those that earlier entries lead to, if any, has the same value |
| `Search.NestedValueComesFirst` | libs/bencode/BDictionary.cpp:184-219 | A concrete tree on which the documented order fails |
| `SharedQueue.NextKeepsExclusive` | includes/network_part/SharedQueue.h:78-122 | At most one thread is in a critical section, and it owns the mutex |
| `SharedQueue.WakesExactlyWhen` | includes/network_part/SharedQueue.h:58-122 | A waiting thread leaves wait() exactly when a notification picks it or it wakes without one, and every notification picks one if any waits |
| `SharedQueue.NextKeepsTest` | includes/network_part/SharedQueue.h:80-83 | An element that the test found is still there when it is taken |
| `SharedQueue.NextKeepsWakeup` | includes/network_part/SharedQueue.h:78-122 | While a thread sleeps un-notified, the queue is no longer than the awake consumers plus the threads yet to notify |
| `SharedQueue.NextKeepsFifo` | includes/network_part/SharedQueue.h:78-122 | The queue is what was pushed and has not left; what was popped are different elements in the order of pushing |
| `SharedQueue.RunKeepsInv` | includes/network_part/SharedQueue.h:78-122 | All of this in every reachable state, for any number of threads, with spurious wakeups |
| `SharedQueue.RestsOnlyWhenEmpty` | includes/network_part/SharedQueue.h:78-122 | No step is possible exactly when every thread is outside or asleep, and then sleepers sleep on an empty queue |
| `SharedQueue.PopTakesOldest` | includes/network_part/SharedQueue.h:82-84 | pop_front returns the oldest element still in the queue |
| `SharedQueue.WithoutClear` | includes/network_part/SharedQueue.h:78-101 | In runs without clear the elements that left are exactly those returned, in order, none lost |
| `Shutdown.WorkerStepKeepsInv` | src/network_part/PeerConnection.cpp:47-132 | A worker's step outside the queue keeps the invariant; once complete it does not enter the queue again |
| `Shutdown.MainStepKeepsInv` | src/network_part/TorrentClient.cpp:125-175 | A step of the main loop, its question whether the queue is empty included, or of terminate() keeps it |
| `Shutdown.InQueueKeepsSupplied` | src/network_part/TorrentClient.cpp:159-163 | Steps inside the queue keep the supply: dummies begun plus workers in pop_front never exceed queue, unpushed dummy and number of workers |
| `Shutdown.RunHolds` | src/network_part/TorrentClient.cpp:113-175 | The invariant in every reachable state of workers, main thread and queue |
| `Shutdown.NobodySleepsAfterTerminate` | src/network_part/TorrentClient.cpp:155-172 | After the last dummy the queue has an element for every worker that may still pop, and no worker sleeps |
| `Shutdown.NeverStuck` | src/network_part/TorrentClient.cpp:155-175 | From the start of terminate() until the main thread returns, some thread can always step |
| `Shutdown.ShutdownIsBounded` | src/network_part/TorrentClient.cpp:155-175 | From terminate() on every run of n workers has at most 15n + 9 steps plus three for each spurious wakeup, whatever the connections do |
| `Shutdown.ShutdownEndsEverybody` | src/network_part/TorrentClient.cpp:155-175 | A run that cannot go on has returned from the main thread and from every worker |
| `ClientRuns.NobodyLeavesEarly` | src/network_part/PeerConnection.cpp:47-132 | In every run in which no retrieved peer has the address of the dummy, no worker has returned and the main thread is still in its loop as long as the download is incomplete |
| `ClientRuns.PopDecides` | src/network_part/PeerConnection.cpp:51-59 | A worker that pops a real peer connects to it, one that pops a dummy returns |
| `ClientRuns.ListensExactlyWhen` | src/network_part/PeerConnection.cpp:59-130 | At every point of every run a worker listens to a peer exactly when it has connected to one with success and has not left since |
| `ClientRuns.CompleteExactlyWhen` | src/network_part/PeerConnection.cpp:61-93 | The download is complete exactly when some worker has received the block that completes it |
| `ClientRuns.HandedIsConserved` | src/network_part/TorrentClient.cpp:125-163 | In every run the peers retrieved and the dummies are exactly, in this order, those pushed, the one being pushed and those still to be pushed |
| `ClientRuns.PeersReachQueue` | src/network_part/TorrentClient.cpp:139-163 | So the queue only ever holds peers that were handed over, in their order, none lost or made up but for those that were popped or cleared |
| `ClientRuns.StaleAreGone` | src/network_part/TorrentClient.cpp:137-139 | Once the queue has been cleared for newly retrieved peers, none of the earlier ones is in it |
| `WholeRun.EverybodyReturns` | src/network_part/TorrentClient.cpp:125-175 | There is a run in which a peer is retrieved, popped and listened to, the download completes, and the worker and the main thread return |
| `Framing.ToString` | src/network_part/BitTorrentMessage.cpp:17-30 | The reversed loop over the little-endian length gives four big-endian bytes, then id and payload |
| `Framing.Socket.ReceiveData` | src/network_part/connect.cpp:100-167 | Returns exactly the frame or the given number of bytes and consumes no more; every failing case |
| `Framing.Socket.ReceiveBody` | src/network_part/connect.cpp:141-166 | The loop collects exactly the expected bytes from any fragments, or fails exactly when they do not all come |
| `Framing.Socket.ReceiveMessage` | src/network_part/PeerConnection.cpp:339-347 | An empty frame is a keep-alive, otherwise id and payload |
| `Framing.FramingRoundTripExactlyWhen` | src/network_part/connect.cpp:107-166 | For any messages and any fragmentation of their bytes, receiving gives the messages back in order with nothing left exactly when each length prefix comes whole |
| `Framing.SplitPrefixFails` | src/network_part/connect.cpp:110-129 | A concrete message that is received whole and lost when its length comes in two parts |
| `Framing.OversizeFails` | src/network_part/connect.cpp:138-141 | A message whose length field exceeds INT_MAX is never received |
| `Framing.Bytes4OfValue` | src/network_part/PeerConnection.cpp:214-219 | Four bytes and the 32-bit number they stand for determine each other |
| `PeerPayloads.BytesToIntViaBinary` | src/network_part/utils.cpp:98-106 | The binary string and stoi give the big-endian number, and throw exactly on no bytes or above INT_MAX |
| `PeerPayloads.RecoveredExactlyWhen` | src/network_part/utils.cpp:98-106 | A 32-bit integer is recovered from its four bytes exactly when its top bit is clear |
| `PeerPayloads.RequestPayload` | src/network_part/PeerConnection.cpp:211-220 | The buffer of three copied words is their big-endian bytes in order |
| `PeerPayloads.RequestRecoveredExactlyWhen` | src/network_part/PeerConnection.cpp:211-220 | Piece, offset and length are all recovered exactly when they are ints |
| `PeerPayloads.PieceParsedExactlyWhen` | src/network_part/PeerConnection.cpp:86-91 | A piece message is accepted exactly when it has both numbers and they are ints, and what is read determines the payload |
| `PeerPayloads.PieceRoundTrip` | src/network_part/PeerConnection.cpp:86-91 | Index, offset and block of a piece message are read back |
| `PeerConnection.PeerConnection.HandleMessage` | src/network_part/PeerConnection.cpp:63-118 | The switch makes exactly the step `Dispatch`: which call on the piece manager, which flag, and when it throws |
| `PeerConnection.PeerConnection.HandlePiece` | src/network_part/PeerConnection.cpp:81-93 | The case of a piece message |
| `PeerConnection.PeerConnection.RequestPiece` | src/network_part/PeerConnection.cpp:120-232 | The message built is exactly the request of `Ask` for the next block |
| `PeerConnection.PeerConnection.EstablishNewConnection` | src/network_part/PeerConnection.cpp:149-299 | Which fields and which call on the piece manager each way of succeeding or failing leaves behind |
| `PeerConnection.PeerConnection.CloseSock` | src/network_part/PeerConnection.cpp:361-376 | Nothing without a socket; otherwise no request is pending, and the peer is removed when its bit field had been received, with what that throws escaping |
| `PeerConnection.PeerConnection.TakeTurn` | src/network_part/PeerConnection.cpp:61-130 | One turn of the inner loop with its exception handler, uninterrupted, is exactly `TakeTurn` of the session |
| `PeerMessages.ChokeSetsFlag` | includes/network_part/BitTorrentMessage.h:20-21 | Messages 0 and 1 set the choke flag to true and false, and do nothing else |
| `PeerMessages.HaveAdvertises` | src/network_part/PeerConnection.cpp:95-104 | Message 4 adds exactly the piece it names to what its peer advertises, and throws exactly for an unknown peer or a payload that is no int |
| `PeerMessages.BitFieldReplaces` | src/network_part/PeerConnection.cpp:105-113 | Message 5 replaces what its peer advertises |
| `PeerMessages.PieceDelivers` | src/network_part/PeerConnection.cpp:81-93 | Message 7 ends the pending request and passes the block on when both numbers are there and are ints; otherwise, or when the block was not asked for, it throws |
| `PeerMessages.OthersAreIgnored` | src/network_part/PeerConnection.cpp:63-118 | The other kinds up to 10 change nothing, those beyond throw |
| `PeerMessages.AsksExactlyWhen` | src/network_part/PeerConnection.cpp:120-126 | A request is sent exactly when the peer does not choke the worker, none is pending and there is a block to ask for |
| `PeerMessages.RequestOnTheWire` | src/network_part/PeerConnection.cpp:199-231 | What is written for a request is 0 0 0 13, 6, and the piece, offset and length in four bytes each, the highest first |
| `PeerMessages.CloseForgets` | src/network_part/PeerConnection.cpp:361-376 | Closing an open connection forgets its request, socket and bit field, keeps its choke flag and id, and takes the peer off the piece manager exactly when it has sent a bit field and the download is incomplete |
| `PeerMessages.TurnsWithoutRequest` | src/network_part/PeerConnection.cpp:361-376 | In every run a worker has no request pending when it turns to a peer |
| `PeerMessages.PendingExactlyWhen` | src/network_part/PeerConnection.cpp:81-126 | At every point of every run a request is pending exactly when one has been sent and the worker has neither received a piece message nor closed its connection since |
| `PeerMessages.ClosingExactlyWhen` | src/network_part/PeerConnection.cpp:127-130 | At every point of every run a worker is in its exception handler exactly when receiving or sending has failed and it has not closed its connection since |
| `PeerHistory.AskingExactlyWhen` | src/network_part/PeerConnection.cpp:63-123 | At every point of every run a worker is about to ask for a block exactly when it has received a message without throwing and not asked since |
| `PeerHistory.SendingExactlyWhen` | src/network_part/PeerConnection.cpp:190-231 | It is about to send a request exactly when it has been given that block to ask for and not tried to send it since |
| `PeerHistory.OpenExactlyWhen` | src/network_part/PeerConnection.cpp:149-180 | At every point of every run the socket of a worker is open exactly when it has been opened and not closed since, whatever became of the handshake |
| `PeerHistory.ConnectedExactlyWhen` | src/network_part/PeerConnection.cpp:277-299 | A worker is in its inner loop or the handler exactly when establishing a connection has come to its end and the connection has not been closed since |
| `PeerHistory.PeerIdIsLastNamed` | src/network_part/PeerConnection.cpp:149-180 | The peer id of a worker is the last one read in a handshake |
| `PeerHistory.BitFieldIsLastListed` | src/network_part/PeerConnection.cpp:361-376 | Its bit field is the last one received, and empty when the connection has been closed since |
| `PeerSession.TurnIsEvents` | src/network_part/PeerConnection.cpp:61-130 | Such a turn is what the separate events of the worker make one after the other |
| `PeerSession.EventActs` | src/network_part/PeerConnection.cpp:47-132 | Whatever a worker does next, and whatever a message holds, it makes at most one step of the download |
| `PeerSession.WorldIsRun` | src/network_part/PeerConnection.cpp:47-132 | Every run of any number of workers, interleaved at every call on the piece manager, is a run of the download, so that everything proved of those holds of these |
| `PeerSession.WorldKeepsFile` | src/network_part/PeerConnection.cpp:47-132 | At every point of every such run every had piece is in its place in the file, unless a collision has been written |
| `PeerSession.AnyPeersEndToEnd` | src/network_part/PeerConnection.cpp:47-132 | For any workers, messages, failures and interleaving of them: when the download is complete the file is the content, or a collision has been written |
| `PeerSession.AskedIsSound` | src/network_part/PeerConnection.cpp:120-231 | A request is made only un-choked and with none pending, for a pending block of an ongoing piece that is not had and that the peer advertises |
| `PeerSession.RequestIsReadBack` | src/network_part/PeerConnection.cpp:211-229 | The piece, offset and length of the block are what bytesToInt reads from the message, when they are ints |
| `PeerSession.OneRequestAtATime` | src/network_part/PeerConnection.cpp:85-123 | In every run, between two requests of one worker a piece message arrives at it or it closes its connection |
| `PeerSession.CloseEscapesExactlyWhen` | src/network_part/PeerConnection.cpp:127-130 | The exception handler itself throws exactly when the download is incomplete and the peer of an open connection that has passed on a bit field has already been removed |
| `PeerSession.NeverEndedWhenDistinct` | src/network_part/PeerConnection.cpp:127-130 | No run is ended by that in which no two such connections share a peer id |
| `PeerSession.SharedIdEnds` | src/network_part/PeerConnection.cpp:127-130 | Two connections to one peer that both fail end the program |
| `PeerSession.UnchokedExactlyWhen` | src/network_part/PeerConnection.cpp:69-79 | At every point of every run a worker that started choked is un-choked exactly when some peer has un-choked it and none has choked it since, whichever peers they were |
| `PeerSession.UnchokedByAnotherExactlyWhen` | src/network_part/PeerConnection.cpp:361-376 | It is un-choked although the peer it last turned to has never un-choked it exactly when the last un-choke came from an earlier peer and nobody has choked it after that |
| `PeerSession.ChokeFlagIsKept` | src/network_part/PeerConnection.cpp:361-376 | A run after which a worker is about to ask a second peer for a block although only the first has unchoked it |
| `PeerSession.KeepAliveIsRefused` | src/network_part/PeerConnection.cpp:64-66 | The keep-alive of the protocol is received with an id that the worker throws on |
| `SplitSession.EventDelivers` | src/network_part/PeerConnection.cpp:47-132 | With the lock sections of blockReceived as separate steps, whatever a worker does next is at most one step of Deliveries: a piece message enters blockReceived, every other call is one action |
| `SplitSession.WorldIsDeliveries` | src/network_part/PeerConnection.cpp:47-132 | Every run of any number of workers, interleaved at every lock section, is a run of Deliveries |
| `SplitSession.PeersApartEndToEnd` | src/network_part/PeerConnection.cpp:47-132 | For any workers, messages and failures, interleaved inside blockReceived too, in which nobody is in blockReceived for a piece that another worker is finishing: when the download is complete the file is the content, or a collision has been written |
| `SplitSession.ReceiptAlone` | src/network_part/PeerConnection.cpp:81-93 | A message whose receipt nobody interrupts leaves what the one step of PeerSession leaves, the exception of an unsolicited block included |
| `SplitSession.RunIsSplit` | src/network_part/PeerConnection.cpp:47-132 | Every run of PeerSession is such a run, with the deliveries apart throughout |

## Left out

Statements that differ from the code, or are weaker than it:

- PieceManager.PieceManager.BlockReceived: one step without interruption. The lock is released at line 345 and taken again at line 359 (the unlock commented out at line 376 suggests the wider lock); the Deliveries module takes the two lock sections and each step between them apart, without the tearing of single reads and writes.
- PieceManager.PieceManager.GetRarestPiece: a peer without a missing piece yields no piece, as the comment at lines 175-176 intends; the code leaves the pointer uninitialised (line 288).
- PieceManager.PieceManager.LeastCount: the ordered map is scanned by index, over all pieces instead of over its entries.
- PieceManager.PieceManager.NextRequest: blocks are named by piece and position instead of by pointer, so sharing of a block outside its piece is not modelled; the clock is read once per call.
- StreamDecoding.Clamp: strToNum is taken to store what it extracts, the nearest limit when the number is out of range, here and in StreamDecoder.Decoder.DecodeInteger; the code omits the assignment (libs/bencode/Utils.h, lines 28-35) and tests/testDecoder.cpp, line 35, shows the intent.
- SubstringDecoder.DecodeValue: offsets are unbounded integers, so inputs of 2^31 characters or more, where the int offset overflows, are not modelled.
- SubstringDecoding.DecodersAgree: one direction; SubstringGrammar.DecodersAgreeExactlyWhen has both, for every input that the stream decoder accepts, and LooseGrammar.LanguageIsExact has every input that the substring decoder accepts.
- StreamDecoder.Decoder.ReadStringLength: strToNum is taken to store the length it extracts, as for integers.
- DownloadRuns.NeverWrittenTwice: deliveries are atomic; Deliveries.OverlapCompletesEarly is a run of overlapping ones that writes a piece twice.
- PeerSession.AnyPeersEndToEnd: each call on the piece manager is one step, the receipt of a block included, here and in PeerSession.WorldIsRun and PeerSession.WorldKeepsFile; SplitSession.PeersApartEndToEnd takes that apart.
- PieceManager.PieceManager.RemovePeer: one step; the code tests for completion in one lock section and removes the peer in another (src/network_part/PieceManager.cpp, lines 153-155), so the call can throw just after another worker has completed the download.
- PeerSession.CloseEscapesExactlyWhen: for the same reason the handler can throw although the download is complete when the peer is looked up; the completion meant is that at the test.
- PeerConnection.PeerConnection.EstablishNewConnection: how far the handshake comes is a parameter; its bytes are not modelled.
- PeerConnection.PeerConnection.TakeTurn: no other worker steps in between; PeerSession and SplitSession interleave the workers.
- SharedQueue.PopTakesOldest: pop_front returns the element itself instead of a reference to an element already removed.
- Framing.Socket.Recv: one failing return stands for both a closed connection and an error, since both throw.
- Shutdown.WorkerStep: handling a message may complete the download or not, and the exception handler does not throw; the messages themselves, and when it does throw, are those of PeerSession.
- Bitfield.HasPiece: an index beyond the bit field reads as not advertised, and setting it changes nothing; the code indexes the string unchecked.
- BlockTable.InitiatePieces: the total length is unbounded instead of a long, and the piece length is positive; the ints of the table are covered by BlockTable.TableFitsInt.

Where the code and its comments differ, the model follows the code:

- The "rarest" piece counts only the asking peer, so it is the lowest-indexed one; rarest-first is not claimed.
- Two overlapping deliveries of one piece can complete a download that lacks another piece (`OverlapCompletesEarly`, `SafeExactlyWhen`).
- Two connections to one peer that both fail end the program (`SharedIdEnds`).
- The block of a started piece gets no pending request, so it is never re-requested; nextRequest stops as soon as no piece is missing. Downloads are therefore not claimed to finish; `CanComplete` has, for every content that the table covers, a run that does.
- The table covers the content only under the condition of `CoversExactlyWhen`; in particular a last piece of one block or more is short by a block, and a content that is a multiple of the piece length has a wrong last block. Without coverage a download from well-behaved peers cannot complete, short of a collision (`UncoveredNeverCompletes`, `CompletableExactlyWhen`).
- getValue does not search the current level before nested dictionaries.
- A closed connection keeps its choke flag, so a worker that one peer has unchoked may request from the next before that one does (`ChokeFlagIsKept`); requests are only claimed to respect the flag, and `UnchokedByAnotherExactlyWhen` says when it is another peer's.
- The substring decoder accepts lists and dictionaries without their closing e at the end of the input (`CutIsExact`).
- The keep-alive of the protocol, a zero length, is received as id 255, which the worker then refuses (`KeepAliveIsRefused`).

Not modelled:

- That a connection call returns or throws at all; `ShutdownIsBounded` counts steps, not time.
- Values of the second decoder hold both int and unsigned long long; the model has one kind of integer. Its map and the library's dictionary are one sorted sequence of entries.
- Display, progress, statistics, URL escaping and the two pretty printers.
- Opening, connecting and sending on sockets, handshakes, tracker requests, thread creation and libtorrent.
- The parser of torrent files and the hashing of new torrents (createHash).
- Memory management and the front() operation of the queue, which nothing calls.
