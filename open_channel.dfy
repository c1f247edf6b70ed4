/**
 * The channel-open circuit: it verifies both players' board proofs,
 * serialises the host's opening shot and publishes host commitment
 * [0..4), guest commitment [4..8) and the opening shot [8].
 */
module OpenChannel {
  import opened Wrappers
  import opened LittleEndian
  import opened Commitments
  import opened ShotGadget
  import Ships
  import IncrementChannel

  /**
   * `partial_witness`: the opening shot's coordinates are written to the
   * two shot targets, x first. (The proof and verifier-data targets are
   * left out.)
   */
  method PartialWitness(shot: (Ships.U8, Ships.U8), shotT: array<nat>)
    requires shotT.Length == 2
    modifies shotT
    ensures shotT[..] == [shot.0, shot.1]
  {
    shotT[0] := shot.0;
    shotT[1] := shot.1;
  }

  /**
   * `prove_channel_open`: satisfiable iff both board proofs verify and the
   * opening shot passes the range checks; the public inputs are the host
   * proof's, the guest proof's and the serialised shot, in that order.
   */
  function ProveChannelOpen(hostPis: seq<nat>, hostVerifies: bool, guestPis: seq<nat>, guestVerifies: bool, x: nat, y: nat): (r: Option<seq<nat>>)
    ensures r.Some? <==> hostVerifies && guestVerifies && x <= 8 && y <= 8
  {
    if hostVerifies && guestVerifies && SerializeShot(x, y).Some? then
      Some(hostPis + guestPis + [SerializeShot(x, y).value])
    else None
  }

  /**
   * For four-limb commitments the layout is the documented one: nine
   * values, the commitments at [0..4) and [4..8), and at [8] the shot,
   * which reads back as (x, y).
   */
  lemma OpenLayout(host: Digest, guest: Digest, x: nat, y: nat)
    requires x <= 8 && y <= 8
    ensures var r := ProveChannelOpen(host, true, guest, true, x, y).value;
      |r| == 9 && r[0..4] == host && r[4..8] == guest && DeserializeShot(r[8]) == (x, y)
  {
    var r := ProveChannelOpen(host, true, guest, true, x, y).value;
    assert r[0..4] == host && r[4..8] == guest;
  }

  /**
   * `decode_public` as written: host commitment from [0..4) and guest
   * commitment from [0..4) again. Slicing past the end panics (`None`).
   */
  function DecodePublic(pis: seq<nat>): (r: Option<(Digest, Digest)>)
    ensures r.Some? <==> |pis| >= 4
    ensures r.Some? ==> r.value.0 == pis[0..4]
  {
    if |pis| < 4 then None else Some((pis[0..4], pis[0..4]))
  }

  /** Finding, as written: the decoded guest commitment is always the host's. */
  lemma DecodedGuestIsHost(host: Digest, guest: Digest, x: nat, y: nat)
    requires x <= 8 && y <= 8
    ensures DecodePublic(ProveChannelOpen(host, true, guest, true, x, y).value) == Some((host, host))
  {
    OpenLayout(host, guest, x, y);
  }

  /** `decode_public` reading the guest from [4..8), as the layout comment says. */
  function DecodePublicFixed(pis: seq<nat>): (r: Option<(Digest, Digest)>)
    ensures r.Some? <==> |pis| >= 8
  {
    if |pis| < 8 then None else Some((pis[0..4], pis[4..8]))
  }

  /** The corrected decoder recovers both commitments of an open proof. */
  lemma DecodeFixedOpen(host: Digest, guest: Digest, x: nat, y: nat)
    requires x <= 8 && y <= 8
    ensures DecodePublicFixed(ProveChannelOpen(host, true, guest, true, x, y).value) == Some((host, guest))
  {
    OpenLayout(host, guest, x, y);
  }

  /**
   * Finding, as written: the increment circuit decodes its previous state
   * from twelve public inputs, but an open proof has nine, so the first
   * increment after opening panics.
   */
  lemma IncrementRejectsOpen(host: Digest, guest: Digest, x: nat, y: nat)
    requires x <= 8 && y <= 8
    ensures IncrementChannel.DecodePublic(ProveChannelOpen(host, true, guest, true, x, y).value) == None
  {
    OpenLayout(host, guest, x, y);
  }

  /**
   * The open circuit publishing a whole initial state: both commitments,
   * no damage, the host to shoot (turn true) and the opening shot, with
   * the documented range check.
   */
  function ProveChannelOpenFixed(hostPis: seq<nat>, hostVerifies: bool, guestPis: seq<nat>, guestVerifies: bool, x: nat, y: nat): (r: Option<seq<nat>>)
    ensures r.Some? <==> hostVerifies && guestVerifies && x < 10 && y < 10
  {
    if hostVerifies && guestVerifies && SerializeShotFixed(x, y).Some? then
      Some(hostPis + guestPis + [0, 0, FromBool(true), SerializeShotFixed(x, y).value])
    else None
  }

  /** The corrected open proof decodes, with the increment's decoder, to the initial state of the game. */
  lemma OpenFixedDecodes(host: Digest, guest: Digest, x: nat, y: nat)
    requires x < 10 && y < 10
    ensures IncrementChannel.DecodePublic(ProveChannelOpenFixed(host, true, guest, true, x, y).value) ==
      Some(IncrementChannel.GameState(host, guest, 0, 0, true, x + 10 * y))
  {
    var s := IncrementChannel.GameState(host, guest, 0, 0, true, x + 10 * y);
    assert ProveChannelOpenFixed(host, true, guest, true, x, y).value == IncrementChannel.EncodeState(s);
    IncrementChannel.DecodeEncode(s);
  }
}
