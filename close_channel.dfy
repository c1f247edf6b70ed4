/**
 * The channel-close circuit: it verifies the final state proof, requires
 * the damage of the player just shot at to be exactly 17 and publishes
 * the winner's commitment [0..4) and the loser's [4..8).
 *
 * As written the final state is witnessed in fresh targets that nothing
 * connects to the state proof: `CloseCircuit` is the constraint system on
 * any witness, `ProveCloseChannel` the same on the witness
 * `partial_witness` writes, and `CloseFixed` the corrected circuit whose
 * witness is connected to the proof's public inputs.
 */
module CloseChannel {
  import opened Wrappers
  import opened Commitments
  import opened Repetition
  import opened LittleEndian
  import Boards
  import IncrementChannel

  /** The part of the final state the close circuit witnesses: no shot, and the counters as field elements. */
  datatype FinalState = FinalState(host: Digest, guest: Digest, hostDamage: nat, guestDamage: nat, turn: bool)

  /**
   * The values `partial_witness` reads from the final state proof: the
   * commitments from [0..4) and [4..8), the damages from [8] and [9]
   * without truncation, the turn as [10] ≠ 0. Fewer inputs panic.
   */
  function ReadState(pis: seq<nat>): (r: Option<FinalState>)
    ensures r.Some? <==> |pis| >= 11
  {
    if |pis| < 11 then None
    else Some(FinalState(pis[0..4], pis[4..8], pis[8], pis[9], pis[10] != 0))
  }

  /**
   * `partial_witness`: writes the commitments limb by limb into their
   * targets and returns the damage and turn values it sets.
   */
  method PartialWitness(pis: seq<nat>, hostT: array<nat>, guestT: array<nat>) returns (ok: bool, hostDamage: nat, guestDamage: nat, turn: bool)
    requires hostT.Length == 4 && guestT.Length == 4 && hostT != guestT
    modifies hostT, guestT
    ensures ok <==> ReadState(pis).Some?
    ensures ok ==> hostT[..] == ReadState(pis).value.host && guestT[..] == ReadState(pis).value.guest
    ensures ok ==> hostDamage == ReadState(pis).value.hostDamage && guestDamage == ReadState(pis).value.guestDamage
    ensures ok ==> turn == ReadState(pis).value.turn
  {
    hostDamage, guestDamage, turn := 0, 0, false;
    if |pis| < 11 {
      return false, hostDamage, guestDamage, turn;
    }
    for i := 0 to 4
      invariant forall k :: 0 <= k < i ==> hostT[k] == pis[k]
    {
      hostT[i] := pis[i];
    }
    for i := 0 to 4
      invariant forall k :: 0 <= k < 4 ==> hostT[k] == pis[k]
      invariant forall k :: 0 <= k < i ==> guestT[k] == pis[4 + k]
    {
      guestT[i] := pis[4 + i];
    }
    hostDamage := pis[8];
    guestDamage := pis[9];
    turn := pis[10] != 0;
    assert hostT[..] == pis[0..4];
    assert guestT[..] == pis[4..8];
    return true, hostDamage, guestDamage, turn;
  }

  /** The end condition: host damage on the guest's shot (turn true), guest damage otherwise, equal to 17. */
  predicate EndCondition(turn: bool, hostDamage: nat, guestDamage: nat) {
    (if turn then hostDamage else guestDamage) == 17
  }

  /** The end condition is exact equality: the selected counter at 17 closes, any other value, 18 included, does not. */
  lemma EndConditionExact(turn: bool, hostDamage: nat, guestDamage: nat)
    ensures EndCondition(turn, hostDamage, guestDamage) <==>
      (turn && hostDamage == 17) || (!turn && guestDamage == 17)
    ensures !EndCondition(true, 18, guestDamage) && !EndCondition(false, hostDamage, 18)
    ensures !EndCondition(true, 16, 17) && !EndCondition(false, 17, 16)
  {
  }

  /**
   * The winner/loser multiplexer: limb by limb, the winner is the guest
   * and the loser the host when turn is true, and the other way round
   * otherwise.
   */
  method SelectWinnerLoser(turn: bool, host: Digest, guest: Digest) returns (winner: Digest, loser: Digest)
    ensures winner == (if turn then guest else host) && loser == (if turn then host else guest)
    ensures multiset{winner, loser} == multiset{host, guest}
  {
    var w := new nat[4];
    var l := new nat[4];
    for i := 0 to 4
      invariant forall k :: 0 <= k < i ==> w[k] == (if turn then guest[k] else host[k])
      invariant forall k :: 0 <= k < i ==> l[k] == (if turn then host[k] else guest[k])
    {
      w[i] := if turn then guest[i] else host[i];
      l[i] := if turn then host[i] else guest[i];
    }
    winner, loser := w[..], l[..];
  }

  /**
   * The close constraint system as written, on any witness: the state
   * proof verifies and the selected damage is 17; the winner and the loser
   * are selected from the witnessed commitments. The state proof's public
   * inputs appear in no constraint.
   */
  function CloseCircuit(pis: seq<nat>, verifies: bool, w: FinalState): (r: Option<seq<nat>>)
    ensures r.Some? <==> verifies && EndCondition(w.turn, w.hostDamage, w.guestDamage)
    ensures r.Some? ==> |r.value| == 8 && r.value[0..4] == (if w.turn then w.guest else w.host)
    ensures r.Some? ==> r.value[4..8] == (if w.turn then w.host else w.guest)
  {
    if verifies && EndCondition(w.turn, w.hostDamage, w.guestDamage) then
      var r := (if w.turn then w.guest else w.host) + (if w.turn then w.host else w.guest);
      assert r[0..4] == (if w.turn then w.guest else w.host);
      Some(r)
    else None
  }

  /**
   * `prove_close_channel` as the honest prover runs it: the constraint
   * system on the witness `partial_witness` writes. It is satisfied iff the
   * state proof verifies, its inputs can be read and the end condition
   * holds; the public inputs are then the winner's commitment and the
   * loser's, and nothing else.
   */
  function ProveCloseChannel(pis: seq<nat>, verifies: bool): (r: Option<seq<nat>>)
    ensures r.Some? <==> verifies && |pis| >= 11 && EndCondition(pis[10] != 0, pis[8], pis[9])
    ensures r.Some? ==> |r.value| == 8
  {
    match ReadState(pis) {
      case None => None
      case Some(s) => CloseCircuit(pis, verifies, s)
    }
  }

  /**
   * Finding, as written: the witnessed state is not the state the proof
   * publishes. A state proof of a fresh channel, with no damage, cannot be
   * closed by the honest prover, yet a witness with 17 on the host's
   * counter closes it with the guest as winner.
   */
  lemma ForgedCloseAccepted(host: Digest, guest: Digest)
    ensures var start := IncrementChannel.EncodeState(IncrementChannel.GameState(host, guest, 0, 0, true, 0));
      ProveCloseChannel(start, true) == None &&
      CloseCircuit(start, true, FinalState(host, guest, 17, 0, true)) == Some(guest + host)
  {
    var start := IncrementChannel.GameState(host, guest, 0, 0, true, 0);
    CloseOfState(start, true);
    var r := CloseCircuit(IncrementChannel.EncodeState(start), true, FinalState(host, guest, 17, 0, true));
    assert r.value == r.value[0..4] + r.value[4..8];
  }

  /**
   * The final state the proof fixes once the close circuit's targets are
   * connected to its public inputs: every value exactly as published. The
   * turn target is boolean, so a published turn above 1 leaves no witness.
   */
  function PublishedFinal(pis: seq<nat>): (r: Option<FinalState>)
    ensures r.Some? <==> |pis| >= 11 && pis[10] <= 1
    ensures r.Some? ==> r.value.host == pis[0..4] && r.value.guest == pis[4..8]
    ensures r.Some? ==> [r.value.hostDamage, r.value.guestDamage, FromBool(r.value.turn)] == pis[8..11]
  {
    if |pis| < 11 || pis[10] > 1 then None
    else
      var w := FinalState(pis[0..4], pis[4..8], pis[8], pis[9], pis[10] == 1);
      assert [w.hostDamage, w.guestDamage, FromBool(w.turn)] == pis[8..11];
      Some(w)
  }

  /** The close circuit corrected: its witness connected to the state proof's public inputs. */
  function CloseFixed(pis: seq<nat>, verifies: bool, w: FinalState): (r: Option<seq<nat>>)
    ensures r.Some? ==> PublishedFinal(pis) == Some(w)
    ensures r.Some? ==> |r.value| == 8
  {
    if PublishedFinal(pis) == Some(w) then CloseCircuit(pis, verifies, w) else None
  }

  /**
   * The corrected circuit accepts only the published final state, when
   * the proof verifies and the published counter of the board just shot
   * at is 17, and then publishes what the honest prover's proof publishes.
   */
  lemma CloseFixedIff(pis: seq<nat>, verifies: bool, w: FinalState)
    ensures CloseFixed(pis, verifies, w).Some? <==>
      verifies && PublishedFinal(pis) == Some(w) && EndCondition(pis[10] == 1, pis[8], pis[9])
    ensures CloseFixed(pis, verifies, w).Some? ==> CloseFixed(pis, verifies, w) == ProveCloseChannel(pis, verifies)
  {
    if PublishedFinal(pis) == Some(w) {
      assert [w.hostDamage, w.guestDamage, FromBool(w.turn)][0] == pis[8..11][0];
      assert [w.hostDamage, w.guestDamage, FromBool(w.turn)][1] == pis[8..11][1];
      assert [w.hostDamage, w.guestDamage, FromBool(w.turn)][2] == pis[8..11][2];
      assert ReadState(pis) == Some(w);
    }
  }

  /**
   * A close proof names the player whose damage reached 17 as the loser
   * and the other as the winner: the two published commitments are the
   * host's and the guest's, neither duplicated nor invented.
   */
  lemma CloseOutputs(pis: seq<nat>, verifies: bool)
    requires ProveCloseChannel(pis, verifies).Some?
    ensures var r := ProveCloseChannel(pis, verifies).value;
      var s := ReadState(pis).value;
      (s.turn && s.hostDamage == 17 && r[0..4] == s.guest && r[4..8] == s.host) ||
      (!s.turn && s.guestDamage == 17 && r[0..4] == s.host && r[4..8] == s.guest)
    ensures var r := ProveCloseChannel(pis, verifies).value;
      var s := ReadState(pis).value;
      multiset{r[0..4], r[4..8]} == multiset{s.host, s.guest}
  {
    var r := ProveCloseChannel(pis, verifies).value;
    var s := ReadState(pis).value;
    if s.turn {
      assert r == s.guest + s.host;
      assert r[0..4] == s.guest && r[4..8] == s.host;
    } else {
      assert r == s.host + s.guest;
      assert r[0..4] == s.host && r[4..8] == s.guest;
    }
  }

  /** Closing a published channel state: it closes iff the counter of the board just shot at is 17. */
  lemma CloseOfState(s: IncrementChannel.GameState, verifies: bool)
    ensures ProveCloseChannel(IncrementChannel.EncodeState(s), verifies).Some? <==>
      verifies && EndCondition(s.turn, s.hostDamage, s.guestDamage)
    ensures ReadState(IncrementChannel.EncodeState(s)) ==
      Some(FinalState(s.host, s.guest, s.hostDamage, s.guestDamage, s.turn))
    ensures PublishedFinal(IncrementChannel.EncodeState(s)) ==
      Some(FinalState(s.host, s.guest, s.hostDamage, s.guestDamage, s.turn))
    ensures CloseFixed(IncrementChannel.EncodeState(s), verifies, FinalState(s.host, s.guest, s.hostDamage, s.guestDamage, s.turn)) ==
      ProveCloseChannel(IncrementChannel.EncodeState(s), verifies)
  {
    var pis := IncrementChannel.EncodeState(s);
    assert pis[8] == s.hostDamage && pis[9] == s.guestDamage && (pis[10] != 0 <==> s.turn) && pis[10] <= 1;
    assert pis[10] == 1 <==> s.turn;
  }

  /** With the corrected connections a witness other than the published final state is rejected. */
  lemma UnpublishedFinalRejected(s: IncrementChannel.GameState, verifies: bool, w: FinalState)
    requires w != FinalState(s.host, s.guest, s.hostDamage, s.guestDamage, s.turn)
    ensures CloseFixed(IncrementChannel.EncodeState(s), verifies, w) == None
  {
    CloseOfState(s, verifies);
  }

  /** The test's shot sequence: every cell of the host test board, then a dummy coordinate. */
  const HOST_HIT_COORDS: seq<(nat, nat)> := [
    (0, 0), (1, 0), (2, 0), (6, 1), (6, 2), (3, 4), (4, 4), (5, 4), (6, 4),
    (7, 4), (0, 6), (1, 6), (2, 6), (9, 6), (9, 7), (9, 8), (9, 9), (8, 8)
  ]

  /** A coordinate of the sequence, serialised as 10·y + x. */
  function HitCell(i: nat): (r: nat)
    requires i < 18
    ensures r < 100
  {
    HOST_HIT_COORDS[i].0 + 10 * HOST_HIT_COORDS[i].1
  }

  /** The first seventeen cells of the sequence. */
  function HitCells(): (r: seq<nat>)
    ensures |r| == 17
    ensures forall i :: 0 <= i < 17 ==> r[i] == HitCell(i)
  {
    seq(17, i requires 0 <= i < 17 => HitCell(i))
  }

  /** The seventeen serialised cells, in sequence order. */
  lemma HitCellsValue()
    ensures HitCells() == [0, 1, 2, 16, 26, 43, 44, 45, 46, 47, 60, 61, 62, 69, 79, 89, 99]
  {
  }

  /** A strictly increasing sequence repeats no entry. */
  lemma {:induction false} IncreasingDistinct(s: seq<nat>)
    requires forall i :: 0 <= i < |s| - 1 ==> s[i] < s[i + 1]
    ensures Distinct(s) && forall i, j :: 0 <= i < j < |s| ==> s[i] < s[j]
  {
    if |s| > 1 {
      var p := s[..|s| - 1];
      assert forall i :: 0 <= i < |p| - 1 ==> p[i] < p[i + 1];
      IncreasingDistinct(p);
      forall i, j | 0 <= i < j < |s| ensures s[i] < s[j] {
        assert s[i] == p[i];
        if j < |s| - 1 {
          assert s[j] == p[j];
        } else if i < j - 1 {
          assert s[i] < s[j - 1] by { assert s[j - 1] == p[j - 1]; }
        }
      }
    }
  }

  /** The seventeen coordinates name seventeen different cells. */
  lemma HitCellsDistinct()
    ensures Distinct(HitCells())
  {
    HitCellsValue();
    IncreasingDistinct(HitCells());
  }

  /** The seventeen coordinates name exactly the cells of the host test board. */
  lemma HitCellsAreTestCells()
    ensures Elems(HitCells()) == Elems(Boards.BoardCells(Boards.TestBoard()))
  {
    HitCellsValue();
    Boards.TestBoardCells();
    var h := HitCells();
    var cells := Boards.BoardCells(Boards.TestBoard());
    forall k ensures k in h <==> k in cells {
    }
  }

  /** Every one of the seventeen coordinates is a hit on the host test board. */
  lemma HitCellsHit()
    ensures forall i :: 0 <= i < 17 ==> Boards.BitsOf(Boards.TestBoard())[HitCells()[i]]
  {
    HitCellsAreTestCells();
    var h := HitCells();
    forall i | 0 <= i < 17 ensures Boards.BitsOf(Boards.TestBoard())[h[i]] {
      assert h[i] in Elems(h);
    }
  }

  /** The dummy eighteenth coordinate, (8, 8), is a miss on the host test board. */
  lemma LastCoordMisses()
    ensures HitCell(17) == 88 && !Boards.BitsOf(Boards.TestBoard())[HitCell(17)]
  {
    Boards.TestBoardCells();
    assert 88 !in Boards.BoardCells(Boards.TestBoard());
  }

  /**
   * The first seventeen coordinates are the occupied cells of the host
   * test board, each exactly once; the last one, (8, 8), is a miss.
   */
  lemma HostHitCoords()
    ensures Distinct(HitCells())
    ensures Elems(HitCells()) == Elems(Boards.BoardCells(Boards.TestBoard()))
    ensures HitCell(17) == 88 && !Boards.BitsOf(Boards.TestBoard())[HitCell(17)]
    ensures forall i :: 0 <= i < 17 ==> Boards.BitsOf(Boards.TestBoard())[HitCells()[i]]
  {
    HitCellsDistinct();
    HitCellsAreTestCells();
    LastCoordMisses();
    HitCellsHit();
  }
}
