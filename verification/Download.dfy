// PieceManager.cpp as a state machine: one function for every public method, each one atomic step.
module Download {
  import opened Types
  import opened Bitfield
  import opened Blocks
  import Fips180

  const MAX_PENDING_TIME := 10

  // What the torrent file fixes.
  datatype Torrent = Torrent(pieceLength: nat, hashes: seq<bytes>)

  // A request that has been sent: which block of which piece, and when.
  datatype Request = Request(piece: nat, block: nat, timestamp: int)

  // An output file stream. Once an operation fails, later ones do nothing.
  datatype File = File(good: bool, content: bytes)

  // The lists of pieces hold indices into the table of pieces.
  datatype State = State(
    pieces: seq<seq<Block>>,
    missing: seq<nat>,
    ongoing: seq<nat>,
    have: seq<nat>,
    pending: seq<Request>,
    peers: map<string, bytes>,
    file: File)

  datatype Action =
    | AddPeer(peer: string, bitField: bytes)
    | UpdatePeer(peer: string, index: nat)
    | RemovePeer(peer: string)
    | NextRequest(peer: string, now: int)
    | BlockReceived(piece: int, offset: int, data: bytes)

  // Which of the three steps of nextRequest a block comes from.
  datatype Source = Expired | Ongoing | Started

  datatype Outcome =
    | Done
    | Thrown
    | NoBlock
    | Issued(piece: nat, block: nat, source: Source)
    | Stored(piece: nat, block: nat)
    | Mismatched(piece: nat)
    | Written(piece: nat)

  // Every index is in range.
  predicate InRange(s: State) {
    && AllBelow(s.missing, |s.pieces|)
    && AllBelow(s.ongoing, |s.pieces|)
    && AllBelow(s.have, |s.pieces|)
    && NameBlocks(s.pending, s.pieces)
  }

  predicate AllBelow(xs: seq<nat>, n: nat) {
    forall k :: 0 <= k < |xs| ==> xs[k] < n
  }

  predicate NameBlocks(pending: seq<Request>, pieces: seq<seq<Block>>) {
    forall k :: 0 <= k < |pending| ==> pending[k].piece < |pieces| && pending[k].block < |pieces[pending[k].piece]|
  }

  // std::remove followed by erase.
  function Remove(xs: seq<nat>, x: nat): (r: seq<nat>)
    ensures forall y :: y in r <==> y in xs && y != x
  {
    if xs == [] then []
    else if xs[0] == x then Remove(xs[1..], x)
    else [xs[0]] + Remove(xs[1..], x)
  }

  // Writing past the end of a file fills the gap with zeros.
  function WriteAt(f: File, position: nat, data: bytes): File {
    if !f.good then f
    else
      var grown := if |f.content| < position + |data|
        then f.content + seq(position + |data| - |f.content|, _ => 0) else f.content;
      f.(content := if data == [] then f.content
                    else grown[..position] + data + grown[position + |data|..])
  }

  // ----- nextRequest -----

  predicate IsExpired(r: Request, bitField: bytes, now: int) {
    HasPiece(bitField, r.piece) && now - r.timestamp >= MAX_PENDING_TIME
  }

  // expiredRequest: the first request that has waited too long.
  function FirstExpired(pending: seq<Request>, bitField: bytes, now: int): (r: Option<nat>)
    ensures r.Some? ==> r.value < |pending| && IsExpired(pending[r.value], bitField, now)
    ensures r.Some? ==> forall k :: 0 <= k < r.value ==> !IsExpired(pending[k], bitField, now)
    ensures r.None? ==> forall k :: 0 <= k < |pending| ==> !IsExpired(pending[k], bitField, now)
  {
    if pending == [] then None
    else if IsExpired(pending[0], bitField, now) then Some(0)
    else match FirstExpired(pending[1..], bitField, now)
      case Some(k) => Some(k + 1)
      case None => None
  }

  predicate CanContinue(pieces: seq<seq<Block>>, p: nat, bitField: bytes)
    requires p < |pieces|
  {
    HasPiece(bitField, p) && FirstMissing(pieces[p]).Some?
  }

  // nextOngoing: the first ongoing piece with a block to ask for.
  function FirstOngoing(pieces: seq<seq<Block>>, ongoing: seq<nat>, bitField: bytes): (r: Option<nat>)
    requires AllBelow(ongoing, |pieces|)
    ensures r.Some? ==> r.value < |ongoing| && CanContinue(pieces, ongoing[r.value], bitField)
    ensures r.Some? ==> forall k :: 0 <= k < r.value ==> !CanContinue(pieces, ongoing[k], bitField)
    ensures r.None? ==> forall k :: 0 <= k < |ongoing| ==> !CanContinue(pieces, ongoing[k], bitField)
  {
    if ongoing == [] then None
    else if CanContinue(pieces, ongoing[0], bitField) then Some(0)
    else match FirstOngoing(pieces, ongoing[1..], bitField)
      case Some(k) => Some(k + 1)
      case None => None
  }

  // getRarestPiece: every count is one, so the piece of the lowest index among those advertised.
  function Lowest(missing: seq<nat>, bitField: bytes): (r: Option<nat>)
    ensures r.Some? ==> r.value in missing && HasPiece(bitField, r.value)
    ensures r.Some? ==> forall q :: q in missing && HasPiece(bitField, q) ==> r.value <= q
    ensures r.None? ==> forall q :: q in missing ==> !HasPiece(bitField, q)
  {
    if missing == [] then None
    else
      var rest := Lowest(missing[1..], bitField);
      if HasPiece(bitField, missing[0]) && (rest.None? || missing[0] < rest.value) then Some(missing[0]) else rest
  }

  function Reissue(s: State, k: nat, now: int): (State, Outcome)
    requires k < |s.pending|
  {
    var r := s.pending[k];
    (s.(pending := s.pending[k := r.(timestamp := now)]), Issued(r.piece, r.block, Expired))
  }

  function Continue(s: State, p: nat, now: int): (State, Outcome)
    requires p < |s.pieces| && FirstMissing(s.pieces[p]).Some?
  {
    var b := FirstMissing(s.pieces[p]).value;
    (s.(pieces := s.pieces[p := Ask(s.pieces[p], b)], pending := s.pending + [Request(p, b, now)]),
     Issued(p, b, Ongoing))
  }

  // A piece that is started gets no pending request for the block asked of it.
  function Start(s: State, p: nat): (State, Outcome)
    requires p < |s.pieces|
  {
    var t := s.(missing := Remove(s.missing, p), ongoing := s.ongoing + [p]);
    match FirstMissing(s.pieces[p])
    case None => (t, NoBlock)
    case Some(b) => (t.(pieces := s.pieces[p := Ask(s.pieces[p], b)]), Issued(p, b, Started))
  }

  function Next(s: State, peer: string, now: int): (State, Outcome)
    requires InRange(s)
  {
    if s.missing == [] || peer !in s.peers then (s, NoBlock)
    else
      var bitField := s.peers[peer];
      match FirstExpired(s.pending, bitField, now)
      case Some(k) => Reissue(s, k, now)
      case None =>
        match FirstOngoing(s.pieces, s.ongoing, bitField)
        case Some(k) => Continue(s, s.ongoing[k], now)
        case None =>
          match Lowest(s.missing, bitField)
          case Some(p) => Start(s, p)
          case None => (s, NoBlock)
  }

  // ----- blockReceived -----

  predicate Matches(pieces: seq<seq<Block>>, r: Request, piece: int, offset: int)
    requires r.piece < |pieces| && r.block < |pieces[r.piece]|
  {
    r.piece == piece && pieces[r.piece][r.block].offset == offset
  }

  // The pending requests without the first one that matches.
  function WithoutFirst(pieces: seq<seq<Block>>, pending: seq<Request>, piece: int, offset: int): (rest: seq<Request>)
    requires NameBlocks(pending, pieces)
  {
    if pending == [] then []
    else if Matches(pieces, pending[0], piece, offset) then pending[1..]
    else [pending[0]] + WithoutFirst(pieces, pending[1..], piece, offset)
  }

  // Where a piece is written.
  function Position(c: Torrent, p: nat): nat {
    p * c.pieceLength
  }

  // The piece p has just become complete: keep it or throw its blocks away.
  function Finish(c: Torrent, s: State, p: nat): (State, Outcome)
    requires p < |s.pieces| && |s.pieces| == |c.hashes|
  {
    hide Fips180.Digest;
    var data := Data(s.pieces[p]);
    if Fips180.Digest(data) == c.hashes[p] then
      (s.(file := WriteAt(s.file, Position(c, p), data), ongoing := Remove(s.ongoing, p), have := s.have + [p]),
       Written(p))
    else (s.(pieces := s.pieces[p := Reset(s.pieces[p])]), Mismatched(p))
  }

  function Receive(c: Torrent, s: State, piece: int, offset: int, data: bytes): (State, Outcome)
    requires InRange(s) && |s.pieces| == |c.hashes|
  {
    var t := s.(pending := WithoutFirst(s.pieces, s.pending, piece, offset));
    if piece < 0 || piece !in s.ongoing then (t, Thrown)
    else
      match FirstAt(s.pieces[piece], offset)
      case None => (t, Thrown)
      case Some(b) =>
        var u := t.(pieces := s.pieces[piece := Store(s.pieces[piece], b, data)]);
        if Blocks.IsComplete(u.pieces[piece]) then Finish(c, u, piece) else (u, Stored(piece, b))
  }

  // ----- the machine -----

  predicate IsComplete(s: State) {
    |s.have| == |s.pieces|
  }

  function Step(c: Torrent, s: State, a: Action): (State, Outcome)
    requires InRange(s) && |s.pieces| == |c.hashes|
  {
    match a
    case AddPeer(peer, bitField) => (s.(peers := s.peers[peer := bitField]), Done)
    case UpdatePeer(peer, index) =>
      if peer in s.peers then (s.(peers := s.peers[peer := WithPiece(s.peers[peer], index)]), Done) else (s, Thrown)
    case RemovePeer(peer) =>
      if IsComplete(s) then (s, Done)
      else if peer in s.peers then (s.(peers := s.peers - {peer}), Done)
      else (s, Thrown)
    case NextRequest(peer, now) => Next(s, peer, now)
    case BlockReceived(piece, offset, data) => Receive(c, s, piece, offset, data)
  }
}
