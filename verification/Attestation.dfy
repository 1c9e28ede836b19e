/** The optimizer's attestation: the two encoders of its nine-byte message, the SDK's
    ed25519 pre-instruction, and the program's verifier that scans the transaction for it. */
module Attestation {
  import opened Bytes
  import opened Results

  /** Ed25519SigVerify111111111111111111111111111 */
  const ED25519_PROGRAM_ID: Pubkey := Pubkey([
    3, 125, 70, 214, 124, 147, 251, 190, 18, 249, 66, 143, 131, 141, 64, 255,
    5, 112, 116, 73, 39, 244, 138, 100, 252, 202, 112, 68, 128, 0, 0, 0])

  /** Sysvar1nstructions1111111111111111111111111 */
  const IX_SYSVAR_ID: Pubkey := Pubkey([
    6, 167, 213, 23, 24, 123, 209, 102, 53, 218, 212, 4, 85, 253, 194, 192,
    193, 36, 198, 143, 33, 86, 117, 165, 219, 186, 203, 95, 8, 0, 0, 0])

  const SCAN_LIMIT: nat := 16

  datatype Instruction = Instruction(programId: Pubkey, data: seq<byte>)

  /** What the verifier is told: the account passed as the instructions sysvar, the
      transaction's instructions and the clock. */
  datatype Context = Context(ixSysvar: Pubkey, ixs: seq<Instruction>, slot: u64)

  predicate IsEd25519(ix: Instruction) {
    ix.programId == ED25519_PROGRAM_ID
  }

  // ---------------------------------------------------------------- the verifier

  /** Index of the first ed25519 instruction at or after `i` within the scan limit. */
  function Scan(ixs: seq<Instruction>, i: nat): (r: Option<nat>)
    ensures r.Some? ==> i <= r.value < |ixs| && r.value < SCAN_LIMIT && IsEd25519(ixs[r.value])
    ensures r.Some? ==> forall j :: i <= j < r.value ==> !IsEd25519(ixs[j])
    ensures r.None? ==> forall j :: i <= j < |ixs| && j < SCAN_LIMIT ==> !IsEd25519(ixs[j])
    decreases SCAN_LIMIT - i
  {
    if i >= SCAN_LIMIT || i >= |ixs| then None
    else if IsEd25519(ixs[i]) then Some(i)
    else Scan(ixs, i + 1)
  }

  /** The checks on the bytes of the instruction found, in the order the program makes them. */
  function CheckData(data: seq<byte>, attestor: Pubkey, venue: byte, slot: u64, staleness: u64, now: u64): Result {
    if |data| < 121 then Err(BadAttestIx)
    else if data[16..48] != attestor.bytes then Err(BadAttestor)
    else if data[112] != venue then Err(VenueMismatch)
    else if FromLE(data[113..121]) != slot then Err(AttestationStale)
    else if now > SaturatingAdd(slot, staleness) then Err(AttestationStale)
    else Ok
  }

  function Verdict(ctx: Context, attestor: Pubkey, venue: byte, slot: u64, staleness: u64): Result {
    if ctx.ixSysvar != IX_SYSVAR_ID then Err(BadAttestIx)
    else match Scan(ctx.ixs, 0)
      case None => Err(BadAttestIx)
      case Some(k) => CheckData(ctx.ixs[k].data, attestor, venue, slot, staleness, ctx.slot)
  }

  method Verify(ctx: Context, attestor: Pubkey, venue: byte, attestationSlot: u64, staleness: u64)
    returns (r: Result)
    ensures r == Verdict(ctx, attestor, venue, attestationSlot, staleness)
  {
    if ctx.ixSysvar != IX_SYSVAR_ID {
      return Err(BadAttestIx);
    }
    var edIx := None;
    var i := 0;
    while i < 16
      invariant 0 <= i <= 16 && edIx == None
      invariant Scan(ctx.ixs, 0) == Scan(ctx.ixs, i)
    {
      if i < |ctx.ixs| && ctx.ixs[i].programId == ED25519_PROGRAM_ID {
        edIx := Some(ctx.ixs[i]);
        break;
      } else if i < |ctx.ixs| {
        i := i + 1;
      } else {
        break;  // out of instructions
      }
    }
    if edIx.None? {
      return Err(BadAttestIx);
    }
    var data := edIx.value.data;
    if |data| < 121 {
      return Err(BadAttestIx);
    }
    var pk, msg := data[16..48], data[112..121];
    if pk != attestor.bytes {
      return Err(BadAttestor);
    }
    if msg[0] != venue {
      return Err(VenueMismatch);
    }
    assert msg[1..9] == data[113..121];
    Pow256Of8();
    var slot := FromLE(msg[1..9]);
    if slot != attestationSlot || ctx.slot > SaturatingAdd(slot, staleness) {
      return Err(AttestationStale);
    }
    return Ok;
  }

  // ---------------------------------------------------------------- exactness

  /** The bytes the program reads of an ed25519 instruction say: `attestor` signed (venue, slot). */
  ghost predicate Attests(data: seq<byte>, attestor: Pubkey, venue: byte, slot: u64) {
    && |data| >= 121
    && data[16..48] == attestor.bytes
    && data[112..121] == [venue] + U64LE(slot)
  }

  ghost predicate FirstEd25519At(ixs: seq<Instruction>, k: nat) {
    k < |ixs| && IsEd25519(ixs[k]) && forall j :: 0 <= j < k ==> !IsEd25519(ixs[j])
  }

  /** Acceptance is exact, with the staleness bound over unbounded integers. */
  lemma AcceptanceIsExact(ctx: Context, attestor: Pubkey, venue: byte, slot: u64, staleness: u64)
    ensures Verdict(ctx, attestor, venue, slot, staleness) == Ok
       <==> && ctx.ixSysvar == IX_SYSVAR_ID
            && ctx.slot <= slot + staleness
            && exists k: nat :: k < 16 && FirstEd25519At(ctx.ixs, k)
                             && Attests(ctx.ixs[k].data, attestor, venue, slot)
  {
    forall k: nat | k < 16 && FirstEd25519At(ctx.ixs, k)
      ensures Scan(ctx.ixs, 0) == Some(k)
      ensures CheckData(ctx.ixs[k].data, attestor, venue, slot, staleness, ctx.slot) == Ok
         <==> ctx.slot <= slot + staleness && Attests(ctx.ixs[k].data, attestor, venue, slot)
    {
      DataCheckIsExact(ctx.ixs[k].data, attestor, venue, slot, staleness, ctx.slot);
    }
    match Scan(ctx.ixs, 0)
    case None =>
    case Some(k) => assert FirstEd25519At(ctx.ixs, k);
  }

  lemma DataCheckIsExact(data: seq<byte>, attestor: Pubkey, venue: byte, slot: u64, staleness: u64, now: u64)
    ensures CheckData(data, attestor, venue, slot, staleness, now) == Ok
       <==> now <= slot + staleness && Attests(data, attestor, venue, slot)
  {
    if |data| >= 121 {
      var word := data[113..121];
      U64LEFromLE(word);
      assert data[112..121] == [data[112]] + word;
      if data[112..121] == [venue] + U64LE(slot) {
        assert word == data[112..121][1..] == U64LE(slot);
      }
    }
  }

  /** Why an ed25519 instruction is refused: too short, another key, another venue, and only then
      another slot or a stale one. */
  lemma DataRefusals(data: seq<byte>, attestor: Pubkey, venue: byte, slot: u64, staleness: u64, now: u64)
    ensures var r := CheckData(data, attestor, venue, slot, staleness, now);
            var long := |data| >= 121;
            var signed := long && data[16..48] == attestor.bytes;
            var bound := signed && data[112] == venue;
      && (r == Err(BadAttestIx) <==> !long)
      && (r == Err(BadAttestor) <==> long && !signed)
      && (r == Err(VenueMismatch) <==> signed && !bound)
      && (r == Err(AttestationStale) <==> bound && (data[113..121] != U64LE(slot) || now > slot + staleness))
      && (r == Ok || r in {Err(BadAttestIx), Err(BadAttestor), Err(VenueMismatch), Err(AttestationStale)})
  {
    if |data| >= 121 {
      U64LEFromLE(data[113..121]);
    }
  }

  /** The verdict is that on the first ed25519 instruction of the first sixteen; with a false sysvar
      or without such an instruction it is the refusal as missing. */
  lemma VerdictIsOnTheFirst(ctx: Context, attestor: Pubkey, venue: byte, slot: u64, staleness: u64)
    ensures var v := Verdict(ctx, attestor, venue, slot, staleness);
      && (ctx.ixSysvar != IX_SYSVAR_ID ==> v == Err(BadAttestIx))
      && ((forall k: nat :: k < 16 ==> !FirstEd25519At(ctx.ixs, k)) ==> v == Err(BadAttestIx))
      && forall k: nat :: ctx.ixSysvar == IX_SYSVAR_ID && k < 16 && FirstEd25519At(ctx.ixs, k) ==>
           v == CheckData(ctx.ixs[k].data, attestor, venue, slot, staleness, ctx.slot)
  {
    hide CheckData;
    match Scan(ctx.ixs, 0)
    case None =>
    case Some(k) => assert FirstEd25519At(ctx.ixs, k);
  }

  /** Time only takes acceptance away: a stale attestation stays stale under a clock that
      does not run backwards, and no other verdict depends on the clock. */
  lemma StalenessIsPermanent(ctx: Context, later: u64, attestor: Pubkey, venue: byte, slot: u64, staleness: u64)
    requires ctx.slot <= later
    ensures var v := Verdict(ctx, attestor, venue, slot, staleness);
            var w := Verdict(ctx.(slot := later), attestor, venue, slot, staleness);
            v == w || (v == Ok && w == Err(AttestationStale) && later > slot + staleness)
  {
  }

  /** Wallet-injected instructions before the attestation are harmless up to index 15, and
      fatal beyond: the verdict is the one without them exactly while it stays in the window. */
  lemma PrependingIsNeutral(before: seq<Instruction>, ctx: Context,
                            attestor: Pubkey, venue: byte, slot: u64, staleness: u64)
    requires forall ix :: ix in before ==> !IsEd25519(ix)
    ensures var v := Verdict(ctx, attestor, venue, slot, staleness);
            var w := Verdict(ctx.(ixs := before + ctx.ixs), attestor, venue, slot, staleness);
            match Scan(ctx.ixs, 0)
            case None => v == w == Err(BadAttestIx)
            case Some(k) => w == if |before| + k < 16 then v else Err(BadAttestIx)
  {
    PrependingShiftsTheScan(before, ctx.ixs);
    match Scan(ctx.ixs, 0)
    case None =>
    case Some(k) => assert (before + ctx.ixs)[|before| + k] == ctx.ixs[k];
  }

  lemma PrependingShiftsTheScan(before: seq<Instruction>, ixs: seq<Instruction>)
    requires forall ix :: ix in before ==> !IsEd25519(ix)
    ensures Scan(before + ixs, 0)
         == match Scan(ixs, 0)
            case None => None
            case Some(k) => if |before| + k < 16 then Some(|before| + k) else None
  {
    hide IsEd25519;
    var all := before + ixs;
    Prepended(before, ixs);
    match Scan(ixs, 0)
    case None =>
      assert forall j :: 0 <= j < |all| && j < 16 ==> !IsEd25519(all[j]);
    case Some(k) =>
      assert IsEd25519(all[|before| + k]);
      assert forall j :: 0 <= j < |before| + k ==> !IsEd25519(all[j]);
  }

  lemma Prepended(before: seq<Instruction>, ixs: seq<Instruction>)
    requires forall ix :: ix in before ==> !IsEd25519(ix)
    ensures var all := before + ixs;
      && (forall j :: 0 <= j < |before| ==> !IsEd25519(all[j]))
      && (forall j :: |before| <= j < |all| ==> all[j] == ixs[j - |before|])
  {
    hide IsEd25519;
    var all := before + ixs;
    assert forall j :: 0 <= j < |before| ==> all[j] == before[j] && before[j] in before;
  }

  // ---------------------------------------------------------------- the encoders

  function AttestationMessage(venueCode: int, slot: u64): (msg: seq<byte>)
    ensures |msg| == 9
  {
    [venueCode % 256] + U64LE(slot)
  }

  /** The SDK's encoder. Assigning a number to a byte of a Buffer keeps it modulo 256, and
      `writeBigUInt64LE` throws outside the unsigned 64-bit range. */
  method BuildAttestationMessage(venueCode: int, slot: int) returns (msg: Option<seq<byte>>)
    ensures msg == if 0 <= slot <= U64_MAX then Some(AttestationMessage(venueCode, slot)) else None
  {
    var buf := new byte[9](_ => 0);
    buf[0] := venueCode % 256;
    if slot < 0 || slot > U64_MAX {
      return None;
    }
    Pow256Of8();
    assert buf[..1] == [venueCode % 256];
    WriteLE(buf, slot, 8, 1);
    assert buf[..] == buf[..9] == AttestationMessage(venueCode, slot);
    return Some(buf[..]);
  }

  datatype Venue = Kamino | Marginfi | Drift | Meteora

  function VenueCode(v: Venue): byte {
    match v
    case Kamino => 0
    case Marginfi => 1
    case Drift => 2
    case Meteora => 3
  }

  type Bytes64 = b: seq<byte> | |b| == 64 witness seq(64, _ => 0)

  datatype SignedAttestation = SignedAttestation(venueCode: byte, slot: u64, sig: Bytes64, pubkey: Pubkey)

  /** The optimizer's encoder. The signature itself is whatever `sign` returns on the message. */
  method SignAttestation(venue: Venue, slot: int, signer: Pubkey, sign: seq<byte> -> Bytes64)
    returns (att: Option<SignedAttestation>)
    ensures att == if 0 <= slot <= U64_MAX
                   then Some(SignedAttestation(VenueCode(venue), slot,
                                                sign(AttestationMessage(VenueCode(venue), slot)), signer))
                   else None
  {
    var venueCode := VenueCode(venue);
    var msg := new byte[9](_ => 0);
    msg[0] := venueCode;
    if slot < 0 || slot > U64_MAX {
      return None;
    }
    Pow256Of8();
    assert msg[..1] == [venueCode % 256];
    WriteLE(msg, slot, 8, 1);
    assert msg[..] == msg[..9] == AttestationMessage(venueCode, slot);
    return Some(SignedAttestation(venueCode, slot, sign(msg[..]), signer));
  }

  /** The ed25519 instruction built from an attestation. The sixteen header bytes (signature
      count and offsets) are left open because the program does not read them. */
  function PreInstruction(header: seq<byte>, att: SignedAttestation): Instruction
    requires |header| == 16
  {
    Instruction(ED25519_PROGRAM_ID,
                header + att.pubkey.bytes + att.sig + AttestationMessage(att.venueCode, att.slot))
  }

  /** What the encoders write is accepted for exactly its own signer, venue and slot, wherever
      it stands among the first sixteen instructions, and never beyond them. */
  lemma EncodingIsAccepted(before: seq<Instruction>, header: seq<byte>, att: SignedAttestation,
                           after: seq<Instruction>, now: u64,
                           attestor: Pubkey, venue: byte, slot: u64, staleness: u64)
    requires |header| == 16
    requires forall ix :: ix in before ==> !IsEd25519(ix)
    ensures Verdict(Context(IX_SYSVAR_ID, before + [PreInstruction(header, att)] + after, now),
                    attestor, venue, slot, staleness) == Ok
       <==> && |before| <= 15
            && attestor == att.pubkey && venue == att.venueCode && slot == att.slot
            && now <= att.slot + staleness
  {
    var ix := PreInstruction(header, att);
    var ctx := Context(IX_SYSVAR_ID, [ix] + after, now);
    assert before + [ix] + after == before + ctx.ixs;
    PrependingIsNeutral(before, ctx, attestor, venue, slot, staleness);
    assert ctx.ixs[0] == ix && Scan(ctx.ixs, 0) == Some(0);
    PreInstructionAttests(header, att, attestor, venue, slot);
    DataCheckIsExact(ix.data, attestor, venue, slot, staleness, now);
  }

  lemma PreInstructionAttests(header: seq<byte>, att: SignedAttestation, attestor: Pubkey, venue: byte, slot: u64)
    requires |header| == 16
    ensures Attests(PreInstruction(header, att).data, attestor, venue, slot)
       <==> attestor == att.pubkey && venue == att.venueCode && slot == att.slot
  {
    var msg := AttestationMessage(att.venueCode, att.slot);
    FieldsOfPreInstruction(header, att.pubkey.bytes, att.sig, msg);
    MessageIsInjective(att.venueCode, att.slot, venue, slot);
  }

  lemma FieldsOfPreInstruction(header: seq<byte>, pk: seq<byte>, sig: seq<byte>, msg: seq<byte>)
    requires |header| == 16 && |pk| == 32 && |sig| == 64 && |msg| == 9
    ensures var data := header + pk + sig + msg;
            |data| == 121 && data[16..48] == pk && data[112..121] == msg
  {
  }

  lemma MessageIsInjective(v: byte, s: u64, w: byte, t: u64)
    ensures [v] + U64LE(s) == [w] + U64LE(t) <==> v == w && s == t
  {
    if [v] + U64LE(s) == [w] + U64LE(t) {
      assert U64LE(s) == ([v] + U64LE(s))[1..] == ([w] + U64LE(t))[1..] == U64LE(t);
      assert ([v] + U64LE(s))[0] == ([w] + U64LE(t))[0];
    }
  }

  /** What the optimizer attests for a venue is accepted for that venue's own number, 0 to 3 in the
      order of the on-chain Position, and for no other. */
  lemma AttestedVenue(v: Venue, before: seq<Instruction>, header: seq<byte>, att: SignedAttestation,
                      after: seq<Instruction>, now: u64, attestor: Pubkey, venue: byte, slot: u64, staleness: u64)
    requires |header| == 16 && att.venueCode == VenueCode(v)
    requires forall ix :: ix in before ==> !IsEd25519(ix)
    ensures Verdict(Context(IX_SYSVAR_ID, before + [PreInstruction(header, att)] + after, now),
                    attestor, venue, slot, staleness) == Ok
       <==> && |before| <= 15 && attestor == att.pubkey && slot == att.slot && now <= att.slot + staleness
            && ((v == Kamino && venue == 0) || (v == Marginfi && venue == 1)
                || (v == Drift && venue == 2) || (v == Meteora && venue == 3))
  {
    EncodingIsAccepted(before, header, att, after, now, attestor, venue, slot, staleness);
  }
}
