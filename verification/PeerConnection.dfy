// The class PeerConnection of PeerConnection.cpp, as far as the messages of a
// connected peer change it. Each method makes the step of module PeerSession.
module PeerConnection {
  import opened Types
  import opened Download
  import opened DownloadRuns
  import opened PeerSession
  import PM = PieceManager
  import F = Framing
  import PeerPayloads

  class PeerConnection {
    const pieceManager: PM.PieceManager
    var open: bool    // whether sock is one
    var choked: bool
    var requestPending: bool
    var peerBitField: bytes
    var peerId: string

    constructor (pieceManager: PM.PieceManager)
      ensures this.pieceManager == pieceManager && Abs() == FRESH
    {
      this.pieceManager := pieceManager;
      open := false;
      choked := true;
      requestPending := false;
      peerBitField := [];
      peerId := "";
    }

    ghost function Abs(): Connection
      reads this
    {
      Connection(open, peerId, peerBitField, choked, requestPending)
    }

    // The switch of start(); true when it throws.
    method HandleMessage(message: F.Message) returns (thrown: bool)
      requires pieceManager.Valid()
      modifies this`choked, this`requestPending, pieceManager, pieceManager.all
      ensures pieceManager.Valid() && InRange(old(pieceManager.Abs()))
      ensures |old(pieceManager.Abs()).pieces| == |pieceManager.torrent.hashes|
      ensures Handled(pieceManager.Abs(), Abs(), thrown)
           == Dispatch(pieceManager.torrent, old(pieceManager.Abs()), old(Abs()), message)
    {
      hide Sound, Step, PeerPayloads.ParsePiece, PeerPayloads.BytesToInt;
      SoundInRange(pieceManager.torrent, pieceManager.Abs());
      thrown := false;
      if message.id > 10 { return true; }
      if message.id == CHOKE {
        choked := true;
      } else if message.id == UNCHOKE {
        choked := false;
      } else if message.id == PIECE {
        thrown := HandlePiece(message);
      } else if message.id == HAVE {
        var pieceIndex := PeerPayloads.BytesToInt(message.payload);
        if pieceIndex.None? { return true; }
        var ok := pieceManager.UpdatePeer(peerId, pieceIndex.value);
        thrown := !ok;
      } else if message.id == BIT_FIELD {
        pieceManager.AddPeer(peerId, message.payload);
      }
    }

    // The case of a piece message.
    method HandlePiece(message: F.Message) returns (thrown: bool)
      requires pieceManager.Valid() && message.id == PIECE
      modifies this`requestPending, pieceManager, pieceManager.all
      ensures pieceManager.Valid() && InRange(old(pieceManager.Abs()))
      ensures |old(pieceManager.Abs()).pieces| == |pieceManager.torrent.hashes|
      ensures Handled(pieceManager.Abs(), Abs(), thrown)
           == Dispatch(pieceManager.torrent, old(pieceManager.Abs()), old(Abs()), message)
    {
      hide Sound, PeerPayloads.ParsePiece, Receive;
      SoundInRange(pieceManager.torrent, pieceManager.Abs());
      requestPending := false;
      var parsed := PeerPayloads.ParsePiece(message.payload);
      if parsed.None? { return true; }
      var (index, begin, blockData) := parsed.value;
      var ok := pieceManager.BlockReceived(peerId, index, begin, blockData);
      thrown := !ok;
    }

    // The request at the end of the loop; requestPiece sends it.
    method RequestPiece(now: int) returns (request: Option<F.Message>)
      requires pieceManager.Valid()
      modifies pieceManager, pieceManager.all
      ensures pieceManager.Valid() && Sound(pieceManager.torrent, old(pieceManager.Abs()))
      ensures Asked(pieceManager.Abs(), request)
           == PeerSession.Ask(pieceManager.torrent, old(pieceManager.Abs()), Abs(), now)
    {
      hide Sound, Next;
      ghost var s := pieceManager.Abs();
      ghost var k := Abs();
      SoundInRange(pieceManager.torrent, s);
      if choked || requestPending { return None; }
      var block := pieceManager.NextRequest(peerId, now);
      if block.None? { return None; }
      IssuedInRange(pieceManager.torrent, s, peerId, now);
      var piece, b := block.value.piece, block.value.piece.blocks[block.value.block];
      assert pieceManager.Abs().pieces[piece.index] == piece.blocks;
      var payload := PeerPayloads.RequestPayload(Unsigned(piece.index), Unsigned(b.offset), Unsigned(b.length));
      request := Some(F.Message(REQUEST, payload));
    }

    // closeSock; true when what removePeer throws escapes.
    method CloseSock() returns (escapes: bool)
      requires pieceManager.Valid()
      modifies this`open, this`requestPending, this`peerBitField, pieceManager
      ensures pieceManager.Valid() && InRange(old(pieceManager.Abs()))
      ensures |old(pieceManager.Abs()).pieces| == |pieceManager.torrent.hashes|
      ensures Closed(pieceManager.Abs(), Abs(), escapes)
           == Close(pieceManager.torrent, old(pieceManager.Abs()), old(Abs()))
    {
      hide Sound, Step;
      SoundInRange(pieceManager.torrent, pieceManager.Abs());
      escapes := false;
      if open {
        open := false;
        requestPending := false;
        if peerBitField != [] {
          peerBitField := [];
          var ok := pieceManager.RemovePeer(peerId);
          escapes := !ok;
        }
      }
    }

    // performHandshake and receiveBitField, as far as they come, with what the peer sends.
    method EstablishNewConnection(how: Established) returns (ok: bool)
      requires pieceManager.Valid()
      modifies this, pieceManager
      ensures pieceManager.Valid() && InRange(old(pieceManager.Abs()))
      ensures |old(pieceManager.Abs()).pieces| == |pieceManager.torrent.hashes|
      ensures (pieceManager.Abs(), Abs()) == Establish(pieceManager.torrent, old(pieceManager.Abs()), old(Abs()), how)
      ensures ok <==> how.Listed? && how.interested
    {
      hide Sound, Step;
      SoundInRange(pieceManager.torrent, pieceManager.Abs());
      if how.Refused? { return false; }
      open := true;
      if how.Opened? { return false; }
      peerId := how.peerId;
      if how.Named? { return false; }
      peerBitField := how.bitField;
      pieceManager.AddPeer(peerId, peerBitField);
      ok := how.interested;
    }

    // One turn of the inner loop of start() and its exception handler, when no other worker steps in between.
    method TakeTurn(message: F.Message, now: int, sendFails: bool)
      returns (sent: Option<F.Message>, closed: bool, escapes: bool)
      requires pieceManager.Valid()
      modifies this, pieceManager, pieceManager.all
      ensures pieceManager.Valid() && Sound(pieceManager.torrent, old(pieceManager.Abs()))
      ensures Turn(pieceManager.Abs(), Abs(), sent, closed, escapes)
           == PeerSession.TakeTurn(pieceManager.torrent, old(pieceManager.Abs()), old(Abs()), message, now, sendFails)
    {
      hide Sound, Dispatch, PeerSession.Ask, Close;
      var thrown := HandleMessage(message);
      if thrown {
        escapes := CloseSock();
        return None, true, escapes;
      }
      sent := RequestPiece(now);
      closed, escapes := false, false;
      if sent.Some? {
        if sendFails {
          escapes := CloseSock();
          return None, true, escapes;
        }
        requestPending := true;
      }
    }
  }
}
