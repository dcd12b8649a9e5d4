// Whether a download can complete at all: exactly when the table of blocks covers the content.
module CompletableDownload {
  import opened Types
  import opened Bitfield
  import opened Blocks
  import opened BlockTable
  import opened Download
  import opened DownloadInvariant
  import opened DownloadRuns
  import opened DownloadFile
  import opened DownloadCoverage
  import opened HonestDownload
  import Fips180
  import PM = PieceManager

  const SEED := "seed"

  // A peer that advertises the first n pieces.
  function Everything(n: nat): bytes { seq(n / 8 + 1, _ => 255) }

  lemma HasEverything(n: nat, p: nat)
    requires p < n
    ensures HasPiece(Everything(n), p)
  {
    BitValues();
    var k := 7 - p % 8;
    assert k == 0 || k == 1 || k == 2 || k == 3 || k == 4 || k == 5 || k == 6 || k == 7;
  }

  lemma {:induction false} RemoveOther(xs: seq<nat>, x: nat)
    requires x !in xs
    ensures Remove(xs, x) == xs
  {
    if xs != [] { RemoveOther(xs[1..], x); }
  }

  lemma RemoveFirst(xs: seq<nat>)
    requires xs != [] && xs[0] !in xs[1..]
    ensures Remove(xs, xs[0]) == xs[1..]
  {
    RemoveOther(xs[1..], xs[0]);
  }

  // No block has a negative length.
  predicate Lengthy(s: State) {
    forall p, b :: 0 <= p < |s.pieces| && 0 <= b < |s.pieces[p]| ==> s.pieces[p][b].length >= 0
  }

  lemma StepKeepsLengthy(c: Torrent, s: State, a: Action)
    requires Sound(c, s) && InRange(s) && Lengthy(s)
    ensures Lengthy(Step(c, s, a).0)
  {
    hide Sound, Step;
    StepKeepsShape(c, s, a);
  }

  // The first p pieces are had and nothing else has happened.
  ghost predicate Between(c: Torrent, s: State, content: bytes, p: nat) {
    var n := |c.hashes|;
    && Sound(c, s) && Cut(c, s, content) && Right(c, s, content) && Lengthy(s)
    && p <= n && s.missing == Indices(n)[p..] && s.ongoing == [] && s.have == Indices(n)[..p]
    && s.pending == [] && s.peers == map[SEED := Everything(n)]
  }

  // Piece p is the one that is fetched, and its first k blocks have come.
  ghost predicate Fetching(c: Torrent, s: State, content: bytes, p: nat, k: nat) {
    var n := |c.hashes|;
    && Sound(c, s) && Cut(c, s, content) && Right(c, s, content) && Lengthy(s)
    && p < n && s.missing == Indices(n)[p + 1..] && s.ongoing == [p] && s.have == Indices(n)[..p]
    && s.pending == [] && s.peers == map[SEED := Everything(n)]
    && |s.pieces| == n && k < |s.pieces[p]|
    && forall b :: 0 <= b < |s.pieces[p]| ==> (s.pieces[p][b].status.Retrieved? <==> b < k)
  }

  lemma StartsPiece(c: Torrent, s: State, content: bytes, p: nat)
    requires c.pieceLength > 0 && OneHashPerPiece(c.pieceLength, |content|, |c.hashes|)
    requires Between(c, s, content, p) && p < |c.hashes|
    ensures InRange(s) && |s.pieces| == |c.hashes|
    ensures Fetching(c, Step(c, s, Action.NextRequest(SEED, 0)).0, content, p, 0)
  {
    hide Sound, Cut, Right, Lengthy, HasPiece, Everything, OneHashPerPiece;
    SoundInRange(c, s);
    var n := |c.hashes|;
    var missing := Indices(n)[p..];
    assert missing[0] == p && p in missing;
    forall q | q in s.missing ensures p <= q && q < n {
      var j :| 0 <= j < |missing| && missing[j] == q;
      assert missing[j] == Indices(n)[p + j];
    }
    HasEverything(n, p);
    StartedComesThird(c, s, SEED, 0, p);
    CutIsNotEmpty(c, s, content, p);
    MissingIsFresh(c, s, p);
    assert missing[1..] == Indices(n)[p + 1..];
    assert p !in missing[1..] by {
      assert forall j :: 1 <= j < |missing| ==> missing[j] == p + j;
    }
    RemoveFirst(missing);
    var a := Action.NextRequest(SEED, 0);
    StepSound(c, s, a);
    StepKeepsRight(c, s, a, content);
    StepKeepsCut(c, s, a, content);
    StepKeepsLengthy(c, s, a);
  }

  lemma MissingIsFresh(c: Torrent, s: State, p: nat)
    requires Sound(c, s) && p in s.missing
    ensures p < |s.pieces| && IsFresh(s.pieces[p])
  {
  }

  lemma StepKeepsCut(c: Torrent, s: State, a: Action, content: bytes)
    requires Sound(c, s) && InRange(s) && Cut(c, s, content)
    ensures Cut(c, Step(c, s, a).0, content)
  {
    hide Sound, Step, Slice, SameShape;
    StepKeepsShape(c, s, a);
    var t := Step(c, s, a).0;
    forall p | 0 <= p < |t.pieces| ensures Contiguous(t.pieces[p], 0, |Slice(c, content, p)|) {
      SameShapeContiguous(t.pieces[p], s.pieces[p], 0, |Slice(c, content, p)|);
    }
  }

  lemma {:induction false} ContiguousInside(bs: seq<Block>, from: int, to: int, k: nat)
    requires Contiguous(bs, from, to) && k < |bs| && forall j :: 0 <= j < |bs| ==> bs[j].length >= 0
    ensures from <= bs[k].offset && bs[k].offset + bs[k].length <= to
    decreases |bs|
  {
    var rest := bs[1..];
    if rest != [] {
      ContiguousInside(rest, from + bs[0].length, to, if k > 0 then k - 1 else 0);
      if k == 0 { NotBehind(rest, from + bs[0].length, to); }
    }
  }

  lemma {:induction false} NotBehind(bs: seq<Block>, from: int, to: int)
    requires Contiguous(bs, from, to) && forall j :: 0 <= j < |bs| ==> bs[j].length >= 0
    ensures from <= to
  {
    if bs != [] { NotBehind(bs[1..], from + bs[0].length, to); }
  }

  // The bytes of block k of piece p.
  ghost function BytesOf(c: Torrent, s: State, content: bytes, p: nat, k: nat): (data: bytes)
    requires Cut(c, s, content) && Lengthy(s) && p < |s.pieces| && k < |s.pieces[p]|
    ensures Carries(Slice(c, content, p), s.pieces[p][k], data)
  {
    var part, b := Slice(c, content, p), s.pieces[p][k];
    ContiguousInside(s.pieces[p], 0, |part|, k);
    part[b.offset..b.offset + b.length]
  }

  lemma FirstAtIs(bs: seq<Block>, k: nat)
    requires DistinctOffsets(bs) && k < |bs|
    ensures FirstAt(bs, bs[k].offset) == Some(k)
  {
    var first := FirstAt(bs, bs[k].offset);
  }

  lemma SoundIsDistinct(c: Torrent, s: State, p: nat)
    requires Sound(c, s) && p < |s.pieces|
    ensures DistinctOffsets(s.pieces[p])
  {
  }

  // The next block of the piece arrives; the last one completes it.
  lemma DeliversBlock(c: Torrent, s: State, content: bytes, p: nat, k: nat) returns (a: Action)
    requires Describes(c, content) && Fetching(c, s, content, p, k)
    ensures InRange(s) && |s.pieces| == |c.hashes| && Honest(c, s, a, content)
    ensures var t := Step(c, s, a).0;
      if k + 1 < |s.pieces[p]| then Fetching(c, t, content, p, k + 1) && |t.pieces[p]| == |s.pieces[p]|
      else Between(c, t, content, p + 1)
  {
    hide Sound, Cut, Right, Lengthy, Describes, Slice, Fips180.Digest, WriteAt, Data, Carries, Everything;
    SoundInRange(c, s);
    var n, bs := |c.hashes|, s.pieces[p];
    var data := BytesOf(c, s, content, p, k);
    a := Action.BlockReceived(p, bs[k].offset, data);
    SoundIsDistinct(c, s, p);
    FirstAtIs(bs, k);
    StepSound(c, s, a);
    StepKeepsRight(c, s, a, content);
    StepKeepsCut(c, s, a, content);
    StepKeepsLengthy(c, s, a);
    HonestStepMatches(c, s, a, content);
    hide FirstAt;
    var t, cs := Step(c, s, a).0, Store(bs, k, data);
    assert forall b :: 0 <= b < |cs| ==> (cs[b].status.Retrieved? <==> b < k + 1);
    assert p in s.ongoing;
    if k + 1 < |bs| {
      assert !cs[k + 1].status.Retrieved?;
    } else {
      RemoveFirst([p]);
      assert Indices(n)[..p] + [p] == Indices(n)[..p + 1];
    }
  }

  // ----- the run -----

  ghost predicate EndsIn(c: Torrent, content: bytes, acts: seq<Action>, s: State)
    requires c.pieceLength > 0
  {
    AllHonest(c, Begin(c, content), acts, content) && StateAt(c, Begin(c, content), acts, |acts|) == s
  }

  lemma Extends(c: Torrent, content: bytes, acts: seq<Action>, s: State, a: Action)
    requires c.pieceLength > 0 && EndsIn(c, content, acts, s) && InRange(s) && |s.pieces| == |c.hashes|
    requires Honest(c, s, a, content)
    ensures EndsIn(c, content, acts + [a], Step(c, s, a).0)
  {
    hide Sound, Step, Honest;
    var w, more := Begin(c, content), acts + [a];
    StateAtPrefix(c, w, acts, [a], |acts|);
    forall i | 0 <= i < |more| ensures HonestAt(c, w, more, i, content) {
      StateAtPrefix(c, w, acts, [a], if i < |acts| then i else |acts|);
      if i < |acts| {
        assert HonestAt(c, w, acts, i, content);
      }
    }
  }

  lemma {:induction false} FetchesPiece(c: Torrent, content: bytes, acts: seq<Action>, s: State, p: nat, k: nat)
    returns (more: seq<Action>, t: State)
    requires Fits(c, content) && c.pieceLength > 0 && EndsIn(c, content, acts, s) && Fetching(c, s, content, p, k)
    ensures EndsIn(c, content, more, t) && Between(c, t, content, p + 1)
    decreases |s.pieces[p]| - k
  {
    hide Describes, OneHashPerPiece, Covers, Fetching, Between, EndsIn, Step, Honest;
    FetchingBlock(c, s, content, p, k);
    var a := DeliversBlock(c, s, content, p, k);
    Extends(c, content, acts, s, a);
    var u := Step(c, s, a).0;
    if k + 1 < |s.pieces[p]| {
      FetchingBlock(c, u, content, p, k + 1);
      more, t := FetchesPiece(c, content, acts + [a], u, p, k + 1);
    } else {
      more, t := acts + [a], u;
    }
  }

  lemma FetchingBlock(c: Torrent, s: State, content: bytes, p: nat, k: nat)
    requires Fetching(c, s, content, p, k)
    ensures p < |s.pieces| && k < |s.pieces[p]|
  {
  }

  lemma RequestIsHonest(c: Torrent, s: State, content: bytes)
    requires InRange(s)
    ensures Honest(c, s, Action.NextRequest(SEED, 0), content)
  {
  }

  lemma {:induction false} FetchesRest(c: Torrent, content: bytes, acts: seq<Action>, s: State, p: nat)
    returns (more: seq<Action>, t: State)
    requires Fits(c, content) && c.pieceLength > 0 && EndsIn(c, content, acts, s) && Between(c, s, content, p)
    requires p <= |c.hashes|
    ensures EndsIn(c, content, more, t) && Between(c, t, content, |c.hashes|)
    decreases |c.hashes| - p
  {
    hide Describes, OneHashPerPiece, Covers, Fetching, Between, EndsIn, Step, Honest;
    if p == |c.hashes| {
      more, t := acts, s;
    } else {
      var a := Action.NextRequest(SEED, 0);
      StartsPiece(c, s, content, p);
      RequestIsHonest(c, s, content);
      Extends(c, content, acts, s, a);
      var u := Step(c, s, a).0;
      FetchingBlock(c, u, content, p, 0);
      var before, v := FetchesPiece(c, content, acts + [a], u, p, 0);
      more, t := FetchesRest(c, content, before, v, p + 1);
    }
  }

  // The seed is there and nothing has been asked for.
  lemma Opens(c: Torrent, content: bytes) returns (acts: seq<Action>, s: State)
    requires Fits(c, content)
    ensures c.pieceLength > 0 && EndsIn(c, content, acts, s) && Between(c, s, content, 0)
  {
    CoveredByHashes(c, content);
    hide Describes, OneHashPerPiece, Covers, Sound, Cut, Right, Table;
    var w, a := Begin(c, content), Action.AddPeer(SEED, Everything(|c.hashes|));
    acts, s := [a], Step(c, w, a).0;
    InitialIsCut(c, content, w.file);
    SoundInRange(c, w);
    assert EndsIn(c, content, [], w);
    Extends(c, content, [], w, a);
    assert [] + [a] == [a];
    StepSound(c, w, a);
    StepKeepsRight(c, w, a, content);
    StepKeepsCut(c, w, a, content);
    TableLengths(c.pieceLength, |content|, |c.hashes|);
    assert Indices(|c.hashes|)[0..] == Indices(|c.hashes|) && Indices(|c.hashes|)[..0] == [];
  }

  lemma TableLengths(pieceLength: nat, totalLength: nat, n: nat)
    requires pieceLength > 0
    ensures var table := Table(pieceLength, totalLength, n);
      forall p, b :: 0 <= p < n && 0 <= b < |table[p]| ==> table[p][b].length >= 0
  {
    hide BlockCount;
  }

  lemma AllFetched(c: Torrent, s: State, content: bytes)
    requires Between(c, s, content, |c.hashes|)
    ensures Download.IsComplete(s)
  {
    assert Indices(|c.hashes|)[..|c.hashes|] == Indices(|c.hashes|);
    SoundInRange(c, s);
  }

  // When the table covers the content, there is a run of honest deliveries that completes with the content.
  lemma CanComplete(c: Torrent, content: bytes) returns (acts: seq<Action>)
    requires Fits(c, content)
    ensures c.pieceLength > 0 && AllHonest(c, Begin(c, content), acts, content)
    ensures var t := StateAt(c, Begin(c, content), acts, |acts|);
      Download.IsComplete(t) && t.file.content == content
  {
    var before, s := Opens(c, content);
    var t;
    hide Describes, OneHashPerPiece, Covers, Between, Download.IsComplete, AllHonest, StateAt;
    acts, t := FetchesRest(c, content, before, s, 0);
    AllFetched(c, t, content);
    HonestCompletesExactlyWhen(c, content, acts);
  }

  // ----- exactly when -----

  lemma HonestIsExact(c: Torrent, s: State, acts: seq<Action>, content: bytes)
    requires Sound(c, s) && AllHonest(c, s, acts, content)
    ensures AllExact(c, s, acts)
  {
    hide StateAt, Slice, FirstAt;
    forall i | 0 <= i < |acts| ensures ExactAt(c, s, acts, i) {
      assert HonestAt(c, s, acts, i, content);
    }
  }

  // A run of deliveries of the right lengths that completes without writing a collision.
  ghost predicate Completes(c: Torrent, content: bytes, acts: seq<Action>)
    requires c.pieceLength > 0
  {
    var s := Begin(c, content);
    && AllExact(c, s, acts) && Download.IsComplete(StateAt(c, s, acts, |acts|))
    && forall i :: 0 <= i < |acts| ==> !CollidesAt(c, s, acts, i, content)
  }

  // Whatever the content, such a run exists exactly when the table covers it.
  lemma CompletableExactlyWhen(c: Torrent, content: bytes)
    requires Describes(c, content) && OneHashPerPiece(c.pieceLength, |content|, |c.hashes|)
    ensures c.pieceLength > 0
    ensures (exists acts :: Completes(c, content, acts)) <==> Covers(c.pieceLength, |content|, |c.hashes|)
  {
    CoveredByHashes(c, content);
    hide Describes, OneHashPerPiece, Covers, CollidesAt, StateAt, Download.IsComplete, AllExact;
    if Covers(c.pieceLength, |content|, |c.hashes|) {
      var acts := CanComplete(c, content);
      HonestIsExact(c, Begin(c, content), acts, content);
      forall i | 0 <= i < |acts| ensures !CollidesAt(c, Begin(c, content), acts, i, content) {
        HonestNeverMismatches(c, content, acts, i);
      }
      assert Completes(c, content, acts);
    } else if acts :| Completes(c, content, acts) {
      UncoveredNeverCompletes(c, content, PM.EmptyFile(|content|), acts);
    }
  }
}
