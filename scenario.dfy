/**
 * The repository's end-to-end channel game, played on the corrected
 * state machine: the host and guest test boards are committed, the host
 * opens at the first coordinate of `HOST_HIT_COORDS`, and for each of
 * the first seventeen coordinates the guest's board is shot at it and
 * then the host's board is shot at it, the host's increment naming the
 * next coordinate. The game then closes with the guest as winner.
 */
module Scenario {
  import opened Wrappers
  import opened Commitments
  import opened Ships
  import opened Boards
  import opened StateChannel
  import opened CloseChannel
  import GameShot
  import GameBoard

  /** The guest board of the repository's channel tests. */
  function GuestBoard(): Board {
    Board(Ship(3, 3, true), Ship(5, 4, false), Ship(0, 1, false), Ship(0, 5, true), Ship(6, 1, false))
  }

  /** The cells of the guest test board, in painting order. */
  lemma GuestBoardCells()
    ensures BoardCells(GuestBoard()) == [33, 43, 53, 63, 73, 45, 46, 47, 48, 10, 11, 12, 50, 60, 70, 16, 17]
  {
    var b := GuestBoard();
    assert Cells(b.carrier, 5) == [33, 43, 53, 63, 73];
    assert Cells(b.battleship, 4) == [45, 46, 47, 48];
    assert Cells(b.cruiser, 3) == [10, 11, 12];
    assert Cells(b.submarine, 3) == [50, 60, 70];
    assert Cells(b.destroyer, 2) == [16, 17];
  }

  /** No ship of the guest test board covers a cell of an earlier one. */
  lemma GuestBoardNoOverlap()
    ensures NoOverlap(GuestBoard())
  {
    var b := GuestBoard();
    assert FleetApart(b);
    NoOverlapOfApart(b);
  }

  lemma GuestBoardLegal()
    ensures Legal(GuestBoard())
  {
    GuestBoardCells();
    GuestBoardNoOverlap();
  }

  lemma HostBoardLegal()
    ensures Legal(TestBoard())
  {
    GameBoard.TestBoardOnGrid();
    GameBoard.TestBoardNoOverlap();
  }

  /**
   * The host's shot of round i: the guest's board is shot at the pending
   * coordinate i, naming coordinate i again. It is accepted and lands on
   * the guest's board.
   */
  method HostShoots(c: Channel, gb: Board, i: nat)
    requires i < 17 && c.Valid() && c.turn && c.shot == HitCell(i) && c.guestBoard == gb
    modifies c
    ensures c.Valid() && !c.turn && c.shot == HitCell(i)
    ensures c.hostShots == old(c.hostShots)
    ensures c.hostBoard == old(c.hostBoard) && c.guestBoard == old(c.guestBoard)
    ensures c.host == old(c.host) && c.guest == old(c.guest)
  {
    var proof := GameShot.ShotOutputs(c.shot, BitsOf(gb)[c.shot], c.guest);
    assert IncrementChannel.TargetCommitment(c.State()) == c.guest;
    var ok := c.Increment(proof, HOST_HIT_COORDS[i].0, HOST_HIT_COORDS[i].1);
    assert ok;
  }

  /**
   * The guest's shot of round i: the host's board is shot at coordinate
   * i, naming coordinate i + 1. It is accepted and is recorded against
   * the host's board.
   */
  method GuestShoots(c: Channel, hb: Board, i: nat)
    requires i < 17 && c.Valid() && !c.turn && c.shot == HitCell(i) && c.hostBoard == hb
    modifies c
    ensures c.Valid() && c.turn && c.shot == HitCell(i + 1)
    ensures c.hostShots == old(c.hostShots) + [HitCell(i)]
    ensures c.hostBoard == old(c.hostBoard) && c.guestBoard == old(c.guestBoard)
    ensures c.host == old(c.host) && c.guest == old(c.guest)
  {
    var proof := GameShot.ShotOutputs(c.shot, BitsOf(hb)[c.shot], c.host);
    assert IncrementChannel.TargetCommitment(c.State()) == c.host;
    var ok := c.Increment(proof, HOST_HIT_COORDS[i + 1].0, HOST_HIT_COORDS[i + 1].1);
    assert ok;
  }

  /** Extending the prefix of the shot sequence by one cell. */
  lemma HitCellsPrefix(i: nat)
    requires i < 17
    ensures HitCells()[..i + 1] == HitCells()[..i] + [HitCell(i)]
  {
  }

  /**
   * The seventeen rounds from the opened channel: every increment is
   * accepted, and afterwards the host's board has been shot at every
   * coordinate of the sequence, in order.
   */
  method PlayRounds(c: Channel, hb: Board, gb: Board)
    requires c.Valid() && c.turn && c.shot == HitCell(0) && c.hostShots == []
    requires c.hostBoard == hb && c.guestBoard == gb
    modifies c
    ensures c.Valid() && c.turn && c.hostShots == HitCells()
    ensures c.hostBoard == hb && c.guestBoard == gb
    ensures c.host == old(c.host) && c.guest == old(c.guest)
  {
    for i := 0 to 17
      invariant c.Valid() && c.turn && c.shot == HitCell(i)
      invariant c.hostShots == HitCells()[..i]
      invariant c.hostBoard == hb && c.guestBoard == gb
      invariant c.host == old(c.host) && c.guest == old(c.guest)
    {
      HostShoots(c, gb, i);
      GuestShoots(c, hb, i);
      HitCellsPrefix(i);
    }
  }

  /**
   * The close test on any two legal boards where the host board's cells
   * are exactly the seventeen cells of `HOST_HIT_COORDS`: every increment
   * is accepted and the channel closes with the guest's commitment as
   * winner and the host's as loser.
   */
  method Play(hash: Hasher, hb: Board, gb: Board) returns (winner: Digest, loser: Digest)
    requires Legal(hb) && Legal(gb)
    requires forall i :: 0 <= i < 17 ==> BitsOf(hb)[HitCells()[i]]
    ensures winner == Boards.Hash(hash, gb).value && loser == Boards.Hash(hash, hb).value
  {
    var c := Channel.Open(hash, hb, gb, HOST_HIT_COORDS[0].0, HOST_HIT_COORDS[0].1);
    assert c != null;
    PlayRounds(c, hb, gb);
    HitsAll(BitsOf(hb), HitCells());
    var r := c.Close();
    assert r.Some?;
    winner, loser := r.value.0, r.value.1;
  }

  /** The close test itself, on the repository's host and guest test boards. */
  method StateChannelGame(hash: Hasher) returns (winner: Digest, loser: Digest)
    ensures Boards.Hash(hash, GuestBoard()) == Some(winner)
    ensures Boards.Hash(hash, TestBoard()) == Some(loser)
  {
    GuestBoardLegal();
    HostBoardLegal();
    HostHitCoords();
    winner, loser := Play(hash, TestBoard(), GuestBoard());
  }
}
