/**
 * The state-increment circuit of the channel. It reads the previous state
 * from the previous proof's public inputs and the outputs of a shot proof,
 * copy-constrains them against each other, adds the hit to one damage
 * counter, flips the turn and publishes the next state with the next shot.
 *
 * The state a proof publishes is twelve field elements: host commitment
 * [0..4), guest commitment [4..8), host damage [8], guest damage [9],
 * turn [10] and the serialised shot to check next [11]. Turn true means
 * the host is shooting, so the shot is checked against the guest's board
 * and a hit counts against the guest.
 *
 * The increment circuit is modelled as written, with the defects the
 * cited lines show: on an arbitrary witness (`IncrementCircuit`) and on
 * the witness the witness functions write (`IncrementAsWritten`). It is
 * modelled once more with those defects corrected and its witness
 * connected to the proofs' public inputs (`IncrementFixed`); the
 * corrected transition is `NextState`.
 */
module IncrementChannel {
  import opened Wrappers
  import opened LittleEndian
  import opened Commitments
  import opened ShotGadget
  import GameShot
  import Boards
  import Recursion
  import Ships

  /** `GameState`: both commitments, both damage counters, whose turn it is and the pending shot. */
  datatype GameState = GameState(host: Digest, guest: Digest, hostDamage: nat, guestDamage: nat, turn: bool, shot: nat)

  /** The public inputs a state is published as, in the order the decoder reads them. */
  function EncodeState(s: GameState): (r: seq<nat>)
    ensures |r| == 12
    ensures r[0..4] == s.host && r[4..8] == s.guest
  {
    s.host + s.guest + [s.hostDamage, s.guestDamage, FromBool(s.turn), s.shot]
  }

  /**
   * `decode_public`: the state read back from twelve public inputs. The
   * damages and the shot are cast to `u8`, the turn is "not zero"; slicing
   * or indexing past the end panics, modelled as `None`.
   */
  function DecodePublic(pis: seq<nat>): (r: Option<GameState>)
    ensures r.Some? <==> |pis| >= 12
    ensures r.Some? ==> r.value.hostDamage < 256 && r.value.guestDamage < 256 && r.value.shot < 256
  {
    if |pis| < 12 then None
    else Some(GameState(pis[0..4], pis[4..8], pis[8] % 256, pis[9] % 256, pis[10] != 0, pis[11] % 256))
  }

  /** Decoding an encoded state gives it back, up to the `u8` truncation of the counters and the shot. */
  lemma DecodeEncode(s: GameState)
    ensures DecodePublic(EncodeState(s)) ==
      Some(GameState(s.host, s.guest, s.hostDamage % 256, s.guestDamage % 256, s.turn, s.shot % 256))
    ensures s.hostDamage < 256 && s.guestDamage < 256 && s.shot < 256 ==> DecodePublic(EncodeState(s)) == Some(s)
  {
    var r := EncodeState(s);
    assert r[0..4] == s.host && r[4..8] == s.guest;
    assert r[8] == s.hostDamage && r[9] == s.guestDamage && r[11] == s.shot;
    assert r[10] != 0 <==> s.turn;
  }

  /** Twelve public inputs in range are exactly the encoding of the state they decode to. */
  lemma EncodeDecode(pis: seq<nat>)
    requires |pis| == 12 && pis[8] < 256 && pis[9] < 256 && pis[10] <= 1 && pis[11] < 256
    ensures DecodePublic(pis).Some? && EncodeState(DecodePublic(pis).value) == pis
  {
    var r := EncodeState(DecodePublic(pis).value);
    assert r[..4] == pis[..4] && r[4..8] == pis[4..8];
    assert forall k :: 8 <= k < 12 ==> r[k] == pis[k];
    assert forall k :: 0 <= k < 12 ==> r[k] == pis[k] by {
      forall k | 0 <= k < 12 ensures r[k] == pis[k] {
        if k < 4 {
          assert r[k] == r[..4][k];
        } else if k < 8 {
          assert r[k] == r[4..8][k - 4];
        }
      }
    }
  }

  /** The commitment of the board being shot at: the guest's on the host's turn, the host's otherwise. */
  function TargetCommitment(s: GameState): (r: Digest)
    ensures r == s.host || r == s.guest
    ensures s.host != s.guest ==> (r == s.guest <==> s.turn)
  {
    if s.turn then s.guest else s.host
  }

  /**
   * `constrain_commitment` as written: for each limb, select the guest's
   * limb on the host's turn and the host's otherwise, and connect a fresh
   * target to it. The shot proof's commitment is never used, so the
   * constraints hold whatever board the shot proof was made on.
   */
  method ConstrainCommitment(prev: GameState, shot: GameShot.ShotOutputs) returns (constrained: Digest)
    ensures constrained == TargetCommitment(prev)
  {
    var limbs := new nat[4];
    for i := 0 to 4
      invariant forall k :: 0 <= k < i ==> limbs[k] == TargetCommitment(prev)[k]
    {
      limbs[i] := if prev.turn then prev.guest[i] else prev.host[i];
    }
    constrained := limbs[..];
  }

  /**
   * `constrain_commitment` with the selected limbs connected to the shot
   * proof's commitment, as its comment intends: satisfiable exactly when
   * the shot proof was made on the board being shot at.
   */
  method ConstrainCommitmentFixed(prev: GameState, shot: GameShot.ShotOutputs) returns (ok: bool)
    ensures ok <==> shot.commitment == TargetCommitment(prev)
  {
    var target := TargetCommitment(prev);
    ok := true;
    for i := 0 to 4
      invariant ok <==> forall k :: 0 <= k < i ==> shot.commitment[k] == target[k]
    {
      var limb := if prev.turn then prev.guest[i] else prev.host[i];
      if limb != shot.commitment[i] {
        ok := false;
      }
    }
    assert ok ==> shot.commitment == target;
  }

  /**
   * `witness_shot`: decodes the shot proof's outputs, writes the
   * commitment limb by limb into its targets and returns the hit and the
   * shot it sets; a shot proof that does not decode is an error.
   */
  method WitnessShot(shotPis: seq<nat>, commitmentT: array<nat>) returns (ok: bool, hit: bool, shot: nat)
    requires commitmentT.Length == 4
    modifies commitmentT
    ensures ok <==> GameShot.DecodePublic(shotPis).Some?
    ensures ok ==> commitmentT[..] == GameShot.DecodePublic(shotPis).value.commitment
    ensures ok ==> hit == GameShot.DecodePublic(shotPis).value.hit && shot == GameShot.DecodePublic(shotPis).value.shot
    ensures !ok ==> commitmentT[..] == old(commitmentT[..])
  {
    hit, shot := false, 0;
    var outputs := GameShot.DecodePublic(shotPis);
    if outputs.None? {
      return false, hit, shot;
    }
    for i := 0 to 4
      invariant forall k :: 0 <= k < i ==> commitmentT[k] == outputs.value.commitment[k]
    {
      commitmentT[i] := outputs.value.commitment[i];
    }
    assert commitmentT[..] == outputs.value.commitment;
    return true, outputs.value.hit, outputs.value.shot;
  }

  /**
   * `witness_prev_state`: decodes the previous state proof, writes both
   * commitments limb by limb and returns the counters, turn and shot it
   * sets; a previous proof that does not decode is an error.
   */
  method WitnessPrevState(prevPis: seq<nat>, hostT: array<nat>, guestT: array<nat>)
    returns (ok: bool, hostDamage: nat, guestDamage: nat, turn: bool, shot: nat)
    requires hostT.Length == 4 && guestT.Length == 4 && hostT != guestT
    modifies hostT, guestT
    ensures ok <==> DecodePublic(prevPis).Some?
    ensures ok ==> var s := DecodePublic(prevPis).value;
      hostT[..] == s.host && guestT[..] == s.guest &&
      GameState(hostT[..], guestT[..], hostDamage, guestDamage, turn, shot) == s
    ensures !ok ==> hostT[..] == old(hostT[..]) && guestT[..] == old(guestT[..])
  {
    hostDamage, guestDamage, turn, shot := 0, 0, false, 0;
    var state := DecodePublic(prevPis);
    if state.None? {
      return false, hostDamage, guestDamage, turn, shot;
    }
    var s := state.value;
    for i := 0 to 4
      invariant forall k :: 0 <= k < i ==> hostT[k] == s.host[k]
    {
      hostT[i] := s.host[i];
    }
    for i := 0 to 4
      invariant forall k :: 0 <= k < 4 ==> hostT[k] == s.host[k]
      invariant forall k :: 0 <= k < i ==> guestT[k] == s.guest[k]
    {
      guestT[i] := s.guest[i];
    }
    assert hostT[..] == s.host && guestT[..] == s.guest;
    return true, s.hostDamage, s.guestDamage, s.turn, s.shot;
  }

  /** `witness_next_shot`: the next shot's coordinates go into the two targets, x first. */
  method WitnessNextShot(next: (Ships.U8, Ships.U8), nextT: array<nat>)
    requires nextT.Length == 2
    modifies nextT
    ensures nextT[..] == [next.0, next.1]
  {
    nextT[0] := next.0;
    nextT[1] := next.1;
  }

  /** `constrain_shot`: the shot the shot proof checked is the pending shot of the previous state. */
  predicate ConstrainShot(prev: GameState, shot: GameShot.ShotOutputs) {
    prev.shot == shot.shot
  }

  /**
   * The next state as `prove_channel_increment` computes it: host damage
   * grows by the hit on the guest's turn, the "guest" counter is the host
   * counter plus the hit on the host's turn, and the old turn is kept.
   */
  function NextAsWritten(prev: GameState, hit: bool, next: nat): (r: GameState)
    ensures r.host == prev.host && r.guest == prev.guest && r.shot == next
    ensures r.turn == prev.turn
    ensures !prev.turn ==> r.hostDamage == prev.hostDamage + FromBool(hit) && r.guestDamage == prev.guestDamage
    ensures prev.turn ==> r.hostDamage == prev.hostDamage && r.guestDamage == prev.hostDamage + FromBool(hit)
  {
    var hostIncrement := prev.hostDamage + FromBool(hit);
    var guestIncrement := prev.hostDamage + FromBool(hit);
    GameState(prev.host, prev.guest,
      if prev.turn then prev.hostDamage else hostIncrement,
      if prev.turn then guestIncrement else prev.guestDamage,
      prev.turn, next)
  }

  /**
   * The transition the comments describe: the hit counts against the
   * board being shot at, the turn passes to the other player and the next
   * shot becomes pending.
   */
  function NextState(prev: GameState, hit: bool, next: nat): (r: GameState)
    ensures r.host == prev.host && r.guest == prev.guest && r.shot == next
    ensures r.turn == !prev.turn
    ensures r.hostDamage + r.guestDamage == prev.hostDamage + prev.guestDamage + FromBool(hit)
    ensures prev.turn ==> r.hostDamage == prev.hostDamage
    ensures !prev.turn ==> r.guestDamage == prev.guestDamage
  {
    GameState(prev.host, prev.guest,
      if prev.turn then prev.hostDamage else prev.hostDamage + FromBool(hit),
      if prev.turn then prev.guestDamage + FromBool(hit) else prev.guestDamage,
      !prev.turn, next)
  }

  /** Two transitions, one per player, give the turn back and charge each board its own hit. */
  lemma NextStateRound(s: GameState, hit1: bool, next1: nat, hit2: bool, next2: nat)
    ensures var t := NextState(NextState(s, hit1, next1), hit2, next2);
      t.turn == s.turn && t.shot == next2 &&
      t.hostDamage == s.hostDamage + FromBool(if s.turn then hit2 else hit1) &&
      t.guestDamage == s.guestDamage + FromBool(if s.turn then hit1 else hit2)
  {
  }


  /** A state as the decoder sees it: the counters and the shot cast to `u8`. */
  function Truncated(s: GameState): (r: GameState)
    ensures r.host == s.host && r.guest == s.guest && r.turn == s.turn
    ensures r.hostDamage < 256 && r.guestDamage < 256 && r.shot < 256
    ensures s.hostDamage < 256 && s.guestDamage < 256 && s.shot < 256 ==> r == s
  {
    GameState(s.host, s.guest, s.hostDamage % 256, s.guestDamage % 256, s.turn, s.shot % 256)
  }

  /**
   * The values the increment circuit's own targets hold: the previous
   * state (`game_state_targets`), the shot proof's outputs (`commitment_t`,
   * `hit_t`, `shot_t`) and the next shot's coordinates. The circuit creates
   * all of them as fresh virtual targets, so they hold whatever the prover
   * writes into them.
   */
  datatype IncrementWitness = IncrementWitness(prev: GameState, shot: GameShot.ShotOutputs, nx: nat, ny: nat)

  /**
   * The witness `witness_prev_state`, `witness_shot` and
   * `witness_next_shot` write: the previous state and the shot outputs
   * decoded from the two proofs, and the next shot as given.
   */
  function HonestWitness(prevPis: seq<nat>, shotPis: seq<nat>, nx: nat, ny: nat): (r: Option<IncrementWitness>)
    ensures r.Some? <==> |prevPis| >= 12 && |shotPis| >= 6
    ensures r.Some? ==> DecodePublic(prevPis) == Some(r.value.prev) && GameShot.DecodePublic(shotPis) == Some(r.value.shot)
    ensures r.Some? ==> r.value.nx == nx && r.value.ny == ny
  {
    match (DecodePublic(prevPis), GameShot.DecodePublic(shotPis)) {
      case (Some(prev), Some(shot)) => Some(IncrementWitness(prev, shot, nx, ny))
      case _ => None
    }
  }

  /**
   * The increment constraint system as written, on any witness: both
   * proofs verify, the witnessed shot is the witnessed pending shot and
   * the next shot serialises. The proofs' public inputs appear in no
   * constraint, and `constrain_commitment` adds no condition.
   */
  function IncrementCircuit(prevPis: seq<nat>, prevVerifies: bool, shotPis: seq<nat>, shotVerifies: bool, w: IncrementWitness): (r: Option<seq<nat>>)
    ensures r.Some? <==> prevVerifies && shotVerifies && w.prev.shot == w.shot.shot && w.nx <= 8 && w.ny <= 8
    ensures r.Some? ==> |r.value| == 12 && r.value[0..8] == w.prev.host + w.prev.guest
    ensures r.Some? ==> DecodePublic(r.value) == Some(Truncated(NextAsWritten(w.prev, w.shot.hit, w.nx + 10 * w.ny)))
  {
    if prevVerifies && shotVerifies && ConstrainShot(w.prev, w.shot) && SerializeShot(w.nx, w.ny).Some? then
      var next := NextAsWritten(w.prev, w.shot.hit, SerializeShot(w.nx, w.ny).value);
      DecodeEncode(next);
      Some(EncodeState(next))
    else None
  }

  /**
   * `prove_channel_increment` as the honest prover runs it: the constraint
   * system on the witness the witness functions write. It is satisfied
   * when both proofs verify and decode, the `u8`-cast pending shot is the
   * shot proof's shot and the next shot serialises; the published state is
   * the as-written transition of the decoded one.
   */
  function IncrementAsWritten(prevPis: seq<nat>, prevVerifies: bool, shotPis: seq<nat>, shotVerifies: bool, nx: nat, ny: nat): (r: Option<seq<nat>>)
    ensures r.Some? <==> (|prevPis| >= 12 && |shotPis| >= 6 && prevVerifies && shotVerifies &&
      prevPis[11] % 256 == shotPis[0] % 256 && nx <= 8 && ny <= 8)
    ensures r.Some? ==> |r.value| == 12 && r.value[0..8] == prevPis[0..8]
    ensures r.Some? ==>
      DecodePublic(r.value) == Some(Truncated(NextAsWritten(DecodePublic(prevPis).value, GameShot.DecodePublic(shotPis).value.hit, nx + 10 * ny)))
  {
    match HonestWitness(prevPis, shotPis, nx, ny) {
      case None => None
      case Some(w) =>
        assert prevPis[0..8] == w.prev.host + w.prev.guest;
        IncrementCircuit(prevPis, prevVerifies, shotPis, shotVerifies, w)
    }
  }

  /**
   * Finding, as written: the witnessed state is not the state the
   * previous proof publishes. Whatever two verifying proofs the prover
   * holds, a witness with 17 on the guest's counter is accepted and
   * published, while the honest witness of a fresh channel keeps both
   * counters at 0.
   */
  lemma ForgedStateAccepted(prevPis: seq<nat>, shotPis: seq<nat>, host: Digest, guest: Digest)
    ensures var forged := IncrementWitness(GameState(host, guest, 0, 17, false, 0), GameShot.ShotOutputs(0, false, host), 0, 0);
      IncrementCircuit(prevPis, true, shotPis, true, forged).Some? &&
      DecodePublic(IncrementCircuit(prevPis, true, shotPis, true, forged).value) == Some(GameState(host, guest, 0, 17, false, 0))
    ensures var start := EncodeState(GameState(host, guest, 0, 0, false, 0));
      var honest := [0, 0] + host;
      IncrementAsWritten(start, true, honest, true, 0, 0).Some? &&
      DecodePublic(IncrementAsWritten(start, true, honest, true, 0, 0).value) == Some(GameState(host, guest, 0, 0, false, 0))
  {
    var start := GameState(host, guest, 0, 0, false, 0);
    DecodeEncode(start);
    var honest := [0, 0] + host;
    assert GameShot.DecodePublic(honest).value.shot == 0 && !GameShot.DecodePublic(honest).value.hit;
  }

  /**
   * The witness the proofs fix once the circuit's targets are connected to
   * their public inputs: every value exactly as published. The turn and
   * hit targets are boolean, so a published turn or hit above 1 leaves no
   * witness.
   */
  function PublishedWitness(prevPis: seq<nat>, shotPis: seq<nat>, nx: nat, ny: nat): (r: Option<IncrementWitness>)
    ensures r.Some? <==> |prevPis| >= 12 && |shotPis| >= 6 && prevPis[10] <= 1 && shotPis[1] <= 1
    ensures r.Some? ==> EncodeState(r.value.prev) == prevPis[..12]
    ensures r.Some? ==> [r.value.shot.shot, FromBool(r.value.shot.hit)] + r.value.shot.commitment == shotPis[..6]
    ensures r.Some? ==> r.value.nx == nx && r.value.ny == ny
  {
    if |prevPis| < 12 || |shotPis| < 6 || prevPis[10] > 1 || shotPis[1] > 1 then None
    else
      var prev := GameState(prevPis[0..4], prevPis[4..8], prevPis[8], prevPis[9], prevPis[10] == 1, prevPis[11]);
      var shot := GameShot.ShotOutputs(shotPis[0], shotPis[1] == 1, shotPis[2..6]);
      assert EncodeState(prev) == prevPis[..12] by {
        var e := EncodeState(prev);
        forall k | 0 <= k < 12 ensures e[k] == prevPis[k] {
          if k < 4 {
            assert e[k] == e[0..4][k];
          } else if k < 8 {
            assert e[k] == e[4..8][k - 4];
          }
        }
      }
      assert [shot.shot, FromBool(shot.hit)] + shot.commitment == shotPis[..6] by {
        var e := [shot.shot, FromBool(shot.hit)] + shot.commitment;
        forall k | 0 <= k < 6 ensures e[k] == shotPis[k] {
          if 2 <= k {
            assert e[k] == shot.commitment[k - 2];
          }
        }
      }
      Some(IncrementWitness(prev, shot, nx, ny))
  }

  /** For public inputs in range the honest witness is the published one. */
  lemma HonestWitnessPublished(prevPis: seq<nat>, shotPis: seq<nat>, nx: nat, ny: nat)
    requires |prevPis| >= 12 && |shotPis| >= 6
    requires prevPis[8] < 256 && prevPis[9] < 256 && prevPis[10] <= 1 && prevPis[11] < 256
    requires shotPis[0] < 256 && shotPis[1] <= 1
    ensures HonestWitness(prevPis, shotPis, nx, ny) == PublishedWitness(prevPis, shotPis, nx, ny)
  {
  }

  /**
   * The increment circuit corrected: the witness connected to both proofs'
   * public inputs, the selected commitment connected to the shot proof's,
   * the hit added to the right counter and the turn flipped.
   */
  function IncrementFixed(prevPis: seq<nat>, prevVerifies: bool, shotPis: seq<nat>, shotVerifies: bool, w: IncrementWitness): (r: Option<seq<nat>>)
    ensures r.Some? ==> PublishedWitness(prevPis, shotPis, w.nx, w.ny) == Some(w)
    ensures r.Some? ==> |r.value| == 12 && r.value[0..8] == prevPis[0..8]
  {
    if prevVerifies && shotVerifies && PublishedWitness(prevPis, shotPis, w.nx, w.ny) == Some(w) &&
       w.shot.commitment == TargetCommitment(w.prev) && ConstrainShot(w.prev, w.shot) &&
       SerializeShotFixed(w.nx, w.ny).Some?
    then
      assert prevPis[0..8] == EncodeState(w.prev)[0..8];
      Some(EncodeState(NextState(w.prev, w.shot.hit, SerializeShotFixed(w.nx, w.ny).value)))
    else None
  }

  /**
   * The corrected circuit accepts exactly the witness the proofs publish,
   * when both verify, the shot proof was made on the board being shot at,
   * at the pending shot, and the next shot is on the grid; it then
   * publishes the next state of the state the previous proof published.
   */
  lemma IncrementFixedIff(prevPis: seq<nat>, prevVerifies: bool, shotPis: seq<nat>, shotVerifies: bool, w: IncrementWitness)
    ensures IncrementFixed(prevPis, prevVerifies, shotPis, shotVerifies, w).Some? <==>
      prevVerifies && shotVerifies && PublishedWitness(prevPis, shotPis, w.nx, w.ny) == Some(w) &&
      shotPis[2..6] == TargetCommitment(DecodePublic(prevPis).value) && prevPis[11] == shotPis[0] &&
      w.nx < 10 && w.ny < 10
    ensures IncrementFixed(prevPis, prevVerifies, shotPis, shotVerifies, w).Some? ==>
      prevPis[8] < 255 && prevPis[9] < 255 && prevPis[11] < 256 ==>
      DecodePublic(IncrementFixed(prevPis, prevVerifies, shotPis, shotVerifies, w).value) ==
        Some(NextState(DecodePublic(prevPis).value, GameShot.DecodePublic(shotPis).value.hit, w.nx + 10 * w.ny))
  {
    if PublishedWitness(prevPis, shotPis, w.nx, w.ny) == Some(w) {
      var prev := DecodePublic(prevPis).value;
      assert w.prev.host == prevPis[0..4] == prev.host by {
        assert EncodeState(w.prev)[0..4] == prevPis[..12][0..4];
      }
      assert w.prev.guest == prevPis[4..8] == prev.guest by {
        assert EncodeState(w.prev)[4..8] == prevPis[..12][4..8];
      }
      assert EncodeState(w.prev)[10] == prevPis[10];
      assert w.prev.turn == prev.turn;
      assert w.shot.commitment == shotPis[2..6] by {
        var e := [w.shot.shot, FromBool(w.shot.hit)] + w.shot.commitment;
        assert e[2..6] == shotPis[..6][2..6];
      }
      assert w.prev.shot == prevPis[11] && w.shot.shot == shotPis[0] by {
        assert EncodeState(w.prev)[11] == prevPis[11];
        assert ([w.shot.shot, FromBool(w.shot.hit)] + w.shot.commitment)[0] == shotPis[0];
      }
      if IncrementFixed(prevPis, prevVerifies, shotPis, shotVerifies, w).Some? && prevPis[8] < 255 && prevPis[9] < 255 && prevPis[11] < 256 {
        assert EncodeState(w.prev)[8] == prevPis[8] && EncodeState(w.prev)[9] == prevPis[9];
        assert w.prev == prev;
        assert ([w.shot.shot, FromBool(w.shot.hit)] + w.shot.commitment)[1] == shotPis[1];
        assert w.shot.hit == GameShot.DecodePublic(shotPis).value.hit;
        var next := NextState(w.prev, w.shot.hit, w.nx + 10 * w.ny);
        assert next.hostDamage < 256 && next.guestDamage < 256 && next.shot < 256;
        DecodeEncode(next);
      }
    }
  }

  /** With the corrected connections a witness other than the published state is rejected. */
  lemma UnpublishedStateRejected(prevPis: seq<nat>, prevVerifies: bool, shotPis: seq<nat>, shotVerifies: bool, w: IncrementWitness)
    requires |prevPis| >= 12 && EncodeState(w.prev) != prevPis[..12]
    ensures IncrementFixed(prevPis, prevVerifies, shotPis, shotVerifies, w) == None
  {
  }

  /**
   * Finding, as written: on the host's turn the published guest damage is
   * the host's counter plus the hit. From host damage 3, guest damage 0
   * and a hit, the guest's counter becomes 4 instead of 1.
   */
  lemma GuestCounterReadsHostDamage(host: Digest, guest: Digest)
    ensures var prev := GameState(host, guest, 3, 0, true, 0);
      var shotPis := [0, 1] + guest;
      IncrementAsWritten(EncodeState(prev), true, shotPis, true, 0, 0).Some? &&
      DecodePublic(IncrementAsWritten(EncodeState(prev), true, shotPis, true, 0, 0).value).value.guestDamage == 4 &&
      NextState(prev, true, 0).guestDamage == 1
  {
    var prev := GameState(host, guest, 3, 0, true, 0);
    var shotPis := [0, 1] + guest;
    DecodeEncode(prev);
    assert GameShot.DecodePublic(shotPis).value.hit;
    assert GameShot.DecodePublic(shotPis).value.shot == 0;
  }

  /** Finding, as written: the published turn is the witnessed one, so no increment ever passes the turn. */
  lemma TurnNeverFlips(prevPis: seq<nat>, prevVerifies: bool, shotPis: seq<nat>, shotVerifies: bool, w: IncrementWitness)
    requires IncrementCircuit(prevPis, prevVerifies, shotPis, shotVerifies, w).Some?
    ensures DecodePublic(IncrementCircuit(prevPis, prevVerifies, shotPis, shotVerifies, w).value).value.turn == w.prev.turn
  {
  }

  /**
   * Finding, as written: the circuit's verdict and output do not depend on
   * the commitment in the shot proof, so a shot proof on any board at all
   * is accepted.
   */
  lemma AnyShotCommitmentAccepted(prevPis: seq<nat>, prevVerifies: bool, shotPis: seq<nat>, shotVerifies: bool, nx: nat, ny: nat, other: Digest)
    requires |shotPis| >= 6
    ensures IncrementAsWritten(prevPis, prevVerifies, shotPis[..2] + other + shotPis[6..], shotVerifies, nx, ny) ==
      IncrementAsWritten(prevPis, prevVerifies, shotPis, shotVerifies, nx, ny)
  {
    var forged := shotPis[..2] + other + shotPis[6..];
    assert forged[0] == shotPis[0] && forged[1] == shotPis[1] && |forged| == |shotPis|;
    var a := GameShot.DecodePublic(forged);
    var b := GameShot.DecodePublic(shotPis);
    assert a.value.shot == b.value.shot && a.value.hit == b.value.hit;
  }

  /** With the corrected constraints a shot proof on another board is rejected, whatever the witness. */
  lemma OtherCommitmentRejected(prevPis: seq<nat>, prevVerifies: bool, shotPis: seq<nat>, shotVerifies: bool, w: IncrementWitness)
    requires |prevPis| >= 12 && |shotPis| >= 6
    requires shotPis[2..6] != TargetCommitment(DecodePublic(prevPis).value)
    ensures IncrementFixed(prevPis, prevVerifies, shotPis, shotVerifies, w) == None
  {
    IncrementFixedIff(prevPis, prevVerifies, shotPis, shotVerifies, w);
  }

  /**
   * The layers meet: an honest shot proof on the board being shot at, at
   * the pending shot, drives the corrected circuit, on the witness the
   * witness functions write, to the next state with the reference board's
   * bit at that cell as the hit.
   */
  lemma IncrementByShotProof(hash: Hasher, prev: GameState, b: Boards.Board, x: nat, y: nat, nx: nat, ny: nat)
    requires Boards.Paintable(b) && x <= 8 && y <= 8 && nx < 10 && ny < 10
    requires prev.hostDamage < 255 && prev.guestDamage < 255 && prev.shot == x + 10 * y
    requires TargetCommitment(prev) == Boards.Hash(hash, b).value
    ensures var limbs := Boards.CanonicalOf(Boards.BitsOf(b));
      GameShot.ShotBuild(hash, limbs, x, y).Some? &&
      var shotPis := Recursion.ProveOuter(GameShot.ShotBuild(hash, limbs, x, y).value, true).value;
      HonestWitness(EncodeState(prev), shotPis, nx, ny) ==
        Some(IncrementWitness(prev, GameShot.ShotOutputs(x + 10 * y, Boards.BitsOf(b)[x + 10 * y], Boards.Hash(hash, b).value), nx, ny)) &&
      var w := HonestWitness(EncodeState(prev), shotPis, nx, ny).value;
      IncrementFixed(EncodeState(prev), true, shotPis, true, w).Some? &&
      DecodePublic(IncrementFixed(EncodeState(prev), true, shotPis, true, w).value) ==
        Some(NextState(prev, Boards.BitsOf(b)[x + 10 * y], nx + 10 * ny))
  {
    var limbs := Boards.CanonicalOf(Boards.BitsOf(b));
    GameShot.ShotOfBoard(hash, b, x, y);
    var shotPis := Recursion.ProveOuter(GameShot.ShotBuild(hash, limbs, x, y).value, true).value;
    var shot := GameShot.DecodePublic(shotPis).value;
    assert shot == GameShot.ShotOutputs(x + 10 * y, Boards.BitsOf(b)[x + 10 * y], Boards.Hash(hash, b).value);
    DecodeEncode(prev);
    var pis := EncodeState(prev);
    assert DecodePublic(pis) == Some(prev);
    assert pis[8] == prev.hostDamage && pis[9] == prev.guestDamage && pis[10] <= 1 && pis[11] == prev.shot;
    GameShot.DecodeBuild(hash, limbs, x, y);
    assert shotPis[0] == x + 10 * y && shotPis[1] <= 1;
    HonestWitnessPublished(pis, shotPis, nx, ny);
    var w := HonestWitness(pis, shotPis, nx, ny).value;
    IncrementFixedIff(pis, true, shotPis, true, w);
  }
}
