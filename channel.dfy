/**
 * The game the channel proofs are meant to enforce, as a state machine:
 * a `Channel` object holds the state the proofs carry from one to the
 * next (the fields of `GameTargets`) and changes it one shot at a time.
 * It follows the documented behaviour: the range check accepts 0 ‥ 9,
 * the shot proof's commitment must be the target's, each hit counts
 * against the board shot at, and the turn passes after every shot.
 *
 * Ghost fields keep what the proofs only commit to: the two boards, and
 * the cells shot at on each of them so far.
 */
module StateChannel {
  import opened Wrappers
  import opened Commitments
  import opened LittleEndian
  import opened Repetition
  import opened Boards
  import ShotGadget
  import GameShot
  import IncrementChannel
  import OpenChannel
  import CloseChannel
  import Ships

  /**
   * A board the documented board circuit accepts: every ship on the grid
   * in its own row or column, none wrapping into the next row, and no two
   * ships sharing a cell. Such a board can be painted, so it has bits
   * and a commitment.
   */
  predicate Legal(b: Board)
    ensures Legal(b) ==> Paintable(b)
  {
    if OnGridFleet(b) then
      OnGridPaintable(b);
      NoOverlap(b)
    else false
  }

  /**
   * A carrier at (8, 0) lying across covers cells 8 … 12 and wraps into
   * row 1: the board paints without overlap, but it is not legal.
   */
  lemma WrappingShipIllegal()
    ensures var b := Board(Ships.Ship(8, 0, false), Ships.Ship(0, 2, false), Ships.Ship(0, 4, false), Ships.Ship(0, 6, false), Ships.Ship(0, 8, false));
      Paintable(b) && NoOverlap(b) && !Legal(b)
  {
    var b := Board(Ships.Ship(8, 0, false), Ships.Ship(0, 2, false), Ships.Ship(0, 4, false), Ships.Ship(0, 6, false), Ships.Ship(0, 8, false));
    assert Ships.Cells(b.carrier, 5) == [8, 9, 10, 11, 12];
    assert Ships.Cells(b.battleship, 4) == [20, 21, 22, 23];
    assert Ships.Cells(b.cruiser, 3) == [40, 41, 42];
    assert Ships.Cells(b.submarine, 3) == [60, 61, 62];
    assert Ships.Cells(b.destroyer, 2) == [80, 81];
    assert BoardCells(b) == [8, 9, 10, 11, 12, 20, 21, 22, 23, 40, 41, 42, 60, 61, 62, 80, 81];
    assert !Ships.OnGrid(Fleet(b)[0], LENGTHS[0]);
  }

  predicate Below100(shots: seq<nat>) {
    forall i :: 0 <= i < |shots| ==> shots[i] < 100
  }

  /** How many of the shots landed on a set cell, repeated shots counted again. */
  function Hits(bits: seq<bool>, shots: seq<nat>): (r: nat)
    requires |bits| == 100 && Below100(shots)
    ensures r <= |shots|
  {
    if shots == [] then 0
    else Hits(bits, shots[..|shots| - 1]) + (if bits[shots[|shots| - 1]] then 1 else 0)
  }

  /** The set cells some shot landed on. */
  function HitSet(bits: seq<bool>, shots: seq<nat>): set<nat> {
    set k | k in shots && k < |bits| && bits[k]
  }

  /** One more shot adds one hit if it lands on a set cell. */
  lemma HitsSnoc(bits: seq<bool>, shots: seq<nat>, s: nat)
    requires |bits| == 100 && Below100(shots) && s < 100
    ensures Below100(shots + [s])
    ensures Hits(bits, shots + [s]) == Hits(bits, shots) + FromBool(bits[s])
  {
    assert (shots + [s])[..|shots|] == shots;
  }

  /** Dropping the last shot keeps the rest free of repeats, and the last shot is not among them. */
  lemma DistinctSnoc(shots: seq<nat>)
    requires shots != [] && Distinct(shots)
    ensures Distinct(shots[..|shots| - 1]) && shots[|shots| - 1] !in shots[..|shots| - 1]
  {
    var p, x := shots[..|shots| - 1], shots[|shots| - 1];
    forall i, j | 0 <= i < j < |p| ensures p[i] != p[j] {
      assert p[i] == shots[i] && p[j] == shots[j];
    }
    forall i | 0 <= i < |p| ensures p[i] != x {
      assert p[i] == shots[i];
    }
  }

  /** One more shot adds its cell to the hit set exactly when that cell is set. */
  lemma HitSetSnoc(bits: seq<bool>, p: seq<nat>, x: nat)
    requires x < |bits|
    ensures HitSet(bits, p + [x]) == HitSet(bits, p) + (if bits[x] then {x} else {})
  {
    forall k ensures k in HitSet(bits, p + [x]) <==> k in HitSet(bits, p) + (if bits[x] then {x} else {}) {
      assert k in p + [x] <==> k in p || k == x;
    }
  }

  /** Without repeated shots, the hit count is the number of distinct cells hit. */
  lemma {:induction false} HitsDistinct(bits: seq<bool>, shots: seq<nat>)
    requires |bits| == 100 && Below100(shots) && Distinct(shots)
    ensures Hits(bits, shots) == |HitSet(bits, shots)|
  {
    if shots != [] {
      var p, x := shots[..|shots| - 1], shots[|shots| - 1];
      assert shots == p + [x];
      DistinctSnoc(shots);
      HitsDistinct(bits, p);
      HitSetSnoc(bits, p, x);
      assert x !in HitSet(bits, p);
    }
  }

  /** A shot sequence that lands on a set cell every time counts one hit per shot. */
  lemma {:induction false} HitsAll(bits: seq<bool>, shots: seq<nat>)
    requires |bits| == 100 && Below100(shots)
    requires forall i :: 0 <= i < |shots| ==> bits[shots[i]]
    ensures Hits(bits, shots) == |shots|
  {
    if shots != [] {
      var p := shots[..|shots| - 1];
      assert forall i :: 0 <= i < |p| ==> p[i] == shots[i];
      HitsAll(bits, p);
    }
  }

  /**
   * Against a legal board and without repeated shots, the damage is at
   * most 17, and it is 17 exactly when every ship cell has been shot at:
   * the fleet is sunk.
   */
  lemma FleetSunk(b: Board, shots: seq<nat>)
    requires Legal(b) && Below100(shots) && Distinct(shots)
    ensures Hits(BitsOf(b), shots) <= 17
    ensures Hits(BitsOf(b), shots) == 17 <==> forall k :: k in BoardCells(b) ==> k in shots
  {
    var bits := BitsOf(b);
    var occupied := set k | 0 <= k < |bits| && bits[k];
    CountBits(b);
    assert |occupied| == 17;
    HitsDistinct(bits, shots);
    var hit := HitSet(bits, shots);
    assert hit <= occupied;
    assert |occupied - hit| == |occupied| - |hit|;
    if forall k :: k in BoardCells(b) ==> k in shots {
      assert occupied <= hit;
      assert hit == occupied;
    }
    if |hit| == 17 {
      assert occupied - hit == {};
      forall k | k in BoardCells(b) ensures k in shots {
        assert k in occupied;
      }
    }
  }

  /** The damage counter of one board counts the hits among the shots at it. */
  ghost predicate Counted(b: Board, shots: seq<nat>, damage: nat) {
    Below100(shots) && damage == Hits(BitsOf(b), shots)
  }

  /** Recording one more shot at a board adds its bit to that board's counter. */
  lemma CountedSnoc(b: Board, shots: seq<nat>, damage: nat, s: nat)
    requires Counted(b, shots, damage) && s < 100
    ensures Counted(b, shots + [s], damage + FromBool(BitsOf(b)[s]))
  {
    HitsSnoc(BitsOf(b), shots, s);
  }

  class Channel {
    var host: Digest
    var guest: Digest
    var hostDamage: nat
    var guestDamage: nat
    var turn: bool
    var shot: nat
    ghost var hostBoard: Board
    ghost var guestBoard: Board
    ghost var hostShots: seq<nat>
    ghost var guestShots: seq<nat>

    /** Both boards are legal and each damage counter counts the hits among the shots at that board. */
    ghost predicate Valid()
      reads this
    {
      Legal(hostBoard) && Legal(guestBoard) && shot < 100 &&
      Counted(hostBoard, hostShots, hostDamage) && Counted(guestBoard, guestShots, guestDamage)
    }

    /** The state a proof of this channel publishes. */
    function State(): IncrementChannel.GameState
      reads this
    {
      IncrementChannel.GameState(host, guest, hostDamage, guestDamage, turn, shot)
    }

    /** The board the pending shot is checked against. */
    ghost function TargetBits(): (r: seq<bool>)
      reads this
      ensures |r| == 100
    {
      BitsOf(if turn then guestBoard else hostBoard)
    }

    /** A freshly opened channel: both commitments, no damage, the host to shoot at `shot`. */
    constructor Opened(hash: Hasher, hb: Board, gb: Board, firstShot: nat)
      requires Legal(hb) && Legal(gb) && firstShot < 100
      ensures Valid()
      ensures State() == IncrementChannel.GameState(Boards.Hash(hash, hb).value, Boards.Hash(hash, gb).value, 0, 0, true, firstShot)
      ensures hostBoard == hb && guestBoard == gb && hostShots == [] && guestShots == []
    {
      host := hash(CanonicalOf(BitsOf(hb)));
      guest := hash(CanonicalOf(BitsOf(gb)));
      hostDamage, guestDamage := 0, 0;
      turn := true;
      shot := firstShot;
      hostBoard, guestBoard := hb, gb;
      hostShots, guestShots := [], [];
    }

    /**
     * Opening: both boards must be legal and the opening shot on the
     * grid. The opened state is what the corrected open proof publishes.
     */
    static method Open(hash: Hasher, hb: Board, gb: Board, x: nat, y: nat) returns (c: Channel?)
      ensures c != null <==> Legal(hb) && Legal(gb) && x < 10 && y < 10
      ensures c != null ==> fresh(c) && c.Valid()
      ensures c != null ==>
        c.State() == IncrementChannel.GameState(Boards.Hash(hash, hb).value, Boards.Hash(hash, gb).value, 0, 0, true, x + 10 * y)
      ensures c != null ==> c.hostBoard == hb && c.guestBoard == gb && c.hostShots == [] && c.guestShots == []
      ensures c != null ==>
        IncrementChannel.EncodeState(c.State()) ==
        OpenChannel.ProveChannelOpenFixed(Boards.Hash(hash, hb).value, true, Boards.Hash(hash, gb).value, true, x, y).value
    {
      var serialized := ShotGadget.SerializeShotFixed(x, y);
      if !(Legal(hb) && Legal(gb)) || serialized.None? {
        return null;
      }
      c := new Channel.Opened(hash, hb, gb, serialized.value);
    }

    /**
     * One state increment, given the decoded outputs of a shot proof and
     * the next shot. It is accepted iff the shot proof was made on the
     * board being shot at, at the pending shot, and the next shot is on
     * the grid; the state then moves by `NextState` and the shot is
     * recorded against that board. The shot proof is taken to be sound:
     * a proof on the committed board at the pending shot reports that
     * board's bit.
     */
    method Increment(proof: GameShot.ShotOutputs, nx: nat, ny: nat) returns (ok: bool)
      requires Valid()
      requires proof.commitment == IncrementChannel.TargetCommitment(State()) && proof.shot == shot ==>
        proof.hit == TargetBits()[shot]
      modifies this
      ensures Valid()
      ensures ok <==> (proof.commitment == IncrementChannel.TargetCommitment(old(State())) && proof.shot == old(shot) &&
        nx < 10 && ny < 10)
      ensures ok ==> State() == IncrementChannel.NextState(old(State()), proof.hit, nx + 10 * ny)
      ensures ok ==> hostShots == (if old(turn) then old(hostShots) else old(hostShots) + [old(shot)])
      ensures ok ==> guestShots == (if old(turn) then old(guestShots) + [old(shot)] else old(guestShots))
      ensures hostBoard == old(hostBoard) && guestBoard == old(guestBoard)
      ensures !ok ==> State() == old(State()) && hostShots == old(hostShots) && guestShots == old(guestShots)
    {
      var matches := IncrementChannel.ConstrainCommitmentFixed(State(), proof);
      var next := ShotGadget.SerializeShotFixed(nx, ny);
      if !matches || proof.shot != shot || next.None? {
        return false;
      }
      Record(proof.hit, next.value);
      return true;
    }

    /**
     * The accepted half of an increment: charge the shot to the board
     * being shot at, record it there, pass the turn and make `next` the
     * pending shot.
     */
    method Record(hit: bool, next: nat)
      requires Valid() && next < 100 && hit == TargetBits()[shot]
      modifies this
      ensures Valid()
      ensures State() == IncrementChannel.NextState(old(State()), hit, next)
      ensures hostShots == (if old(turn) then old(hostShots) else old(hostShots) + [old(shot)])
      ensures guestShots == (if old(turn) then old(guestShots) + [old(shot)] else old(guestShots))
      ensures hostBoard == old(hostBoard) && guestBoard == old(guestBoard)
    {
      if turn {
        RecordOnGuest(hit, next);
      } else {
        RecordOnHost(hit, next);
      }
    }

    /** The host's shot: it lands on the guest's board. */
    method RecordOnGuest(hit: bool, next: nat)
      requires Valid() && turn && next < 100 && hit == BitsOf(guestBoard)[shot]
      modifies this
      ensures Valid()
      ensures State() == IncrementChannel.NextState(old(State()), hit, next)
      ensures hostShots == old(hostShots) && guestShots == old(guestShots) + [old(shot)]
      ensures hostBoard == old(hostBoard) && guestBoard == old(guestBoard)
    {
      CountedSnoc(guestBoard, guestShots, guestDamage, shot);
      guestShots := guestShots + [shot];
      guestDamage := guestDamage + FromBool(hit);
      turn, shot := false, next;
    }

    /** The guest's shot: it lands on the host's board. */
    method RecordOnHost(hit: bool, next: nat)
      requires Valid() && !turn && next < 100 && hit == BitsOf(hostBoard)[shot]
      modifies this
      ensures Valid()
      ensures State() == IncrementChannel.NextState(old(State()), hit, next)
      ensures hostShots == old(hostShots) + [old(shot)] && guestShots == old(guestShots)
      ensures hostBoard == old(hostBoard) && guestBoard == old(guestBoard)
    {
      CountedSnoc(hostBoard, hostShots, hostDamage, shot);
      hostShots := hostShots + [shot];
      hostDamage := hostDamage + FromBool(hit);
      turn, shot := true, next;
    }

    /** The end condition of the close circuit on the current state. */
    predicate CanClose()
      reads this
    {
      CloseChannel.EndCondition(turn, hostDamage, guestDamage)
    }

    /**
     * Closing: possible iff the counter of the board just shot at is 17,
     * exactly when the close circuit accepts this state, both on the honest
     * witness and, corrected, on the published one. The result is
     * (winner, loser). When no cell was shot at twice, the loser's whole
     * fleet has been hit.
     */
    method Close() returns (r: Option<(Digest, Digest)>)
      requires Valid()
      ensures r.Some? <==> CanClose()
      ensures r.Some? <==> CloseChannel.ProveCloseChannel(IncrementChannel.EncodeState(State()), true).Some?
      ensures r.Some? <==>
        CloseChannel.CloseFixed(IncrementChannel.EncodeState(State()), true, CloseChannel.FinalState(host, guest, hostDamage, guestDamage, turn)).Some?
      ensures r.Some? ==> r.value == (if turn then (guest, host) else (host, guest))
      ensures r.Some? && turn && Distinct(hostShots) ==> forall k :: k in BoardCells(hostBoard) ==> k in hostShots
      ensures r.Some? && !turn && Distinct(guestShots) ==> forall k :: k in BoardCells(guestBoard) ==> k in guestShots
    {
      CloseChannel.CloseOfState(State(), true);
      if !CloseChannel.EndCondition(turn, hostDamage, guestDamage) {
        return None;
      }
      var winner, loser := CloseChannel.SelectWinnerLoser(turn, host, guest);
      if turn && Distinct(hostShots) {
        FleetSunk(hostBoard, hostShots);
      }
      if !turn && Distinct(guestShots) {
        FleetSunk(guestBoard, guestShots);
      }
      return Some((winner, loser));
    }
  }
}
