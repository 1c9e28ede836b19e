/** The two instructions of the Saber distributor, written field by field at a moving offset,
    and the readers that recover their arguments. */
module SaberCodec {
  import opened Bytes
  import opened Results
  import Hex

  const DISC_NEW_DISTRIBUTOR: seq<byte> := [32, 139, 112, 171, 0, 2, 225, 155]
  const DISC_CLAIM: seq<byte> := [62, 198, 214, 193, 213, 159, 108, 210]

  predicate InU64(n: int) {
    0 <= n <= U64_MAX
  }

  // ------------------------------------------------------------ new_distributor

  datatype NewDistributorArgs = NewDistributorArgs(root: seq<byte>, maxTotalClaim: int, maxNumNodes: int)

  predicate NewDistributorOk(a: NewDistributorArgs) {
    |a.root| == 32 && InU64(a.maxTotalClaim) && InU64(a.maxNumNodes)
  }

  function NewDistributorData(a: NewDistributorArgs): (data: seq<byte>)
    requires NewDistributorOk(a)
    ensures |data| == 57
  {
    DISC_NEW_DISTRIBUTOR + [0] + a.root + U64LE(a.maxTotalClaim) + U64LE(a.maxNumNodes)
  }

  /** A root of another length or an amount outside 64 bits throws. */
  method BuildNewDistributorIx(a: NewDistributorArgs) returns (data: Option<seq<byte>>)
    ensures data == if NewDistributorOk(a) then Some(NewDistributorData(a)) else None
  {
    if |a.root| != 32 {
      return None;
    }
    Pow256Of8();
    var buf := new byte[8 + 1 + 32 + 8 + 8](_ => 0);
    var off := 0;
    CopyInto(DISC_NEW_DISTRIBUTOR, buf, off);
    off := off + 8;
    buf[off] := 0;
    off := off + 1;
    assert buf[..off] == DISC_NEW_DISTRIBUTOR + [0];
    CopyInto(a.root, buf, off);
    off := off + 32;
    assert buf[..off] == DISC_NEW_DISTRIBUTOR + [0] + a.root;
    if !InU64(a.maxTotalClaim) {
      return None;
    }
    WriteLE(buf, a.maxTotalClaim, 8, off);
    off := off + 8;
    assert buf[..off] == DISC_NEW_DISTRIBUTOR + [0] + a.root + U64LE(a.maxTotalClaim);
    if !InU64(a.maxNumNodes) {
      return None;
    }
    WriteLE(buf, a.maxNumNodes, 8, off);
    assert off + 8 == buf.Length && buf[..] == buf[..off + 8];
    return Some(buf[..]);
  }

  function ReadNewDistributor(data: seq<byte>): Option<NewDistributorArgs> {
    if |data| != 57 || data[..8] != DISC_NEW_DISTRIBUTOR then None
    else Some(NewDistributorArgs(data[9..41], FromLE(data[41..49]), FromLE(data[49..57])))
  }

  lemma NewDistributorRoundTrip(a: NewDistributorArgs)
    requires NewDistributorOk(a)
    ensures ReadNewDistributor(NewDistributorData(a)) == Some(a)
  {
    Fields(DISC_NEW_DISTRIBUTOR, [0], a.root, U64LE(a.maxTotalClaim), U64LE(a.maxNumNodes));
    var data := NewDistributorData(a);
    assert data[9..41] == a.root && data[41..49] == U64LE(a.maxTotalClaim);
    assert data[49..57] == data[49..];
  }

  lemma Fields(d: seq<byte>, bump: seq<byte>, x: seq<byte>, y: seq<byte>, z: seq<byte>)
    ensures var data := d + bump + x + y + z;
            var i := |d| + |bump|;
            && data[..|d|] == d && data[i..i + |x|] == x
            && data[i + |x|..i + |x| + |y|] == y
            && data[i + |x| + |y|..] == z
  {
  }

  // ------------------------------------------------------------ claim

  datatype ProofEntry = Text(hex: string) | Raw(bytes: seq<byte>)

  function EntryBytes(e: ProofEntry): seq<byte> {
    match e
    case Text(s) => Hex.FromText(s)
    case Raw(b) => b
  }

  predicate ProofOk(proof: seq<ProofEntry>) {
    forall i :: 0 <= i < |proof| ==> |EntryBytes(proof[i])| == 32
  }

  /** Every entry must be 32 bytes, or the conversion throws. */
  function ProofToBytes(proof: seq<ProofEntry>): (r: Option<seq<Bytes32>>)
    ensures r.Some? <==> ProofOk(proof)
    ensures r.Some? ==> |r.value| == |proof| && forall i :: 0 <= i < |proof| ==> r.value[i] == EntryBytes(proof[i])
  {
    if ProofOk(proof)
    then Some(seq<Bytes32>(|proof|, i requires 0 <= i < |proof| => EntryBytes(proof[i])))
    else None
  }

  /** Hex with the 0x prefix, bare hex and raw bytes of the same siblings are interchangeable. */
  lemma ProofSpellings(siblings: seq<Bytes32>, bare: seq<ProofEntry>, prefixed: seq<ProofEntry>, raw: seq<ProofEntry>)
    requires |bare| == |prefixed| == |raw| == |siblings|
    requires forall i :: 0 <= i < |siblings| ==>
      && bare[i] == Text(Hex.Encode(siblings[i]))
      && prefixed[i] == Text("0x" + Hex.Encode(siblings[i]))
      && raw[i] == Raw(siblings[i])
    ensures ProofToBytes(bare) == ProofToBytes(prefixed) == ProofToBytes(raw) == Some(siblings)
  {
    forall i | 0 <= i < |siblings|
      ensures EntryBytes(bare[i]) == EntryBytes(prefixed[i]) == siblings[i]
    {
      Hex.StripEncoded(siblings[i]);
    }
    assert ProofToBytes(bare).value == siblings;
    assert ProofToBytes(prefixed).value == siblings;
    assert ProofToBytes(raw).value == siblings;
  }

  function Flatten(siblings: seq<Bytes32>): (b: seq<byte>)
    ensures |b| == 32 * |siblings|
  {
    if siblings == [] then [] else Flatten(siblings[..|siblings| - 1]) + siblings[|siblings| - 1]
  }

  datatype ClaimArgs = ClaimArgs(index: int, amount: int, proof: seq<ProofEntry>)

  predicate ClaimOk(a: ClaimArgs) {
    InU64(a.index) && InU64(a.amount) && ProofOk(a.proof) && |a.proof| < 0x1_0000_0000
  }

  function U32LE(n: nat): (b: seq<byte>)
    requires n < 0x1_0000_0000
    ensures |b| == 4 && FromLE(b) == n
  {
    Pow256Of8();
    ToLE(n, 4)
  }

  function ClaimHeader(index: u64, amount: u64, count: nat): (b: seq<byte>)
    requires count < 0x1_0000_0000
    ensures |b| == 29
  {
    DISC_CLAIM + [0] + U64LE(index) + U64LE(amount) + U32LE(count)
  }

  function ClaimData(index: u64, amount: u64, siblings: seq<Bytes32>): (data: seq<byte>)
    requires |siblings| < 0x1_0000_0000
    ensures |data| == 29 + 32 * |siblings|
  {
    ClaimHeader(index, amount, |siblings|) + Flatten(siblings)
  }

  method BuildClaimIx(a: ClaimArgs) returns (data: Option<seq<byte>>)
    ensures data == if ClaimOk(a) then Some(ClaimData(a.index, a.amount, ProofToBytes(a.proof).value)) else None
  {
    var proofBufs := ProofToBytes(a.proof);
    if !InU64(a.index) || proofBufs.None? {
      return None;
    }
    var siblings := proofBufs.value;
    Pow256Of8();
    var buf := new byte[8 + 1 + 8 + 8 + 4 + 32 * |siblings|](_ => 0);
    var off := 0;
    CopyInto(DISC_CLAIM, buf, off);
    off := off + 8;
    buf[off] := 0;
    off := off + 1;
    assert buf[..off] == DISC_CLAIM + [0];
    WriteLE(buf, a.index, 8, off);
    off := off + 8;
    assert buf[..off] == DISC_CLAIM + [0] + U64LE(a.index);
    if !InU64(a.amount) {
      return None;
    }
    WriteLE(buf, a.amount, 8, off);
    off := off + 8;
    assert buf[..off] == DISC_CLAIM + [0] + U64LE(a.index) + U64LE(a.amount);
    if |siblings| >= 0x1_0000_0000 {
      return None;
    }
    WriteLE(buf, |siblings|, 4, off);
    off := off + 4;
    ghost var header := ClaimHeader(a.index, a.amount, |siblings|);
    assert buf[..off] == header;
    CopySiblings(siblings, buf, off);
    assert buf[..] == buf[..off + 32 * |siblings|];
    return Some(buf[..]);
  }

  /** The last part of the claim buffer, one 32-byte sibling after the other. */
  method CopySiblings(siblings: seq<Bytes32>, buf: array<byte>, start: nat)
    requires start + 32 * |siblings| <= buf.Length
    modifies buf
    ensures buf[..start + 32 * |siblings|] == old(buf[..start]) + Flatten(siblings)
  {
    var off := start;
    for i := 0 to |siblings|
      invariant off == start + 32 * i
      invariant buf[..off] == old(buf[..start]) + Flatten(siblings[..i])
    {
      CopyInto(siblings[i], buf, off);
      off := off + 32;
      assert siblings[..i + 1][..i] == siblings[..i];
      assert buf[..off] == old(buf[..start]) + (Flatten(siblings[..i]) + siblings[i]);
    }
    assert siblings[..|siblings|] == siblings;
  }

  function Chunks(b: seq<byte>): (siblings: seq<Bytes32>)
  {
    if |b| < 32 then [] else Chunks(b[..|b| - 32]) + [b[|b| - 32..]]
  }

  lemma {:induction false} ChunksOfFlatten(siblings: seq<Bytes32>)
    ensures Chunks(Flatten(siblings)) == siblings
  {
    if siblings != [] {
      ChunksOfFlatten(siblings[..|siblings| - 1]);
      var b := Flatten(siblings);
      assert b[..|b| - 32] == Flatten(siblings[..|siblings| - 1]);
      assert b[|b| - 32..] == siblings[|siblings| - 1];
    }
  }

  datatype ClaimRead = ClaimRead(index: nat, amount: nat, siblings: seq<Bytes32>)

  /** Borsh: the declared count must match what follows. */
  function ReadClaim(data: seq<byte>): Option<ClaimRead> {
    if |data| < 29 || data[..8] != DISC_CLAIM then None
    else if |data| != 29 + 32 * FromLE(data[25..29]) then None
    else Some(ClaimRead(FromLE(data[9..17]), FromLE(data[17..25]), Chunks(data[29..])))
  }

  lemma ClaimRoundTrip(index: u64, amount: u64, siblings: seq<Bytes32>)
    requires |siblings| < 0x1_0000_0000
    ensures ReadClaim(ClaimData(index, amount, siblings)) == Some(ClaimRead(index, amount, siblings))
  {
    var header := ClaimHeader(index, amount, |siblings|);
    HeaderFields(index, amount, |siblings|);
    hide ClaimHeader, Flatten, Chunks;
    SlicesOfPrefix(header, Flatten(siblings));
    ChunksOfFlatten(siblings);
  }

  lemma HeaderFields(index: u64, amount: u64, count: nat)
    requires count < 0x1_0000_0000
    ensures var header := ClaimHeader(index, amount, count);
            && header[..8] == DISC_CLAIM && FromLE(header[9..17]) == index
            && FromLE(header[17..25]) == amount && FromLE(header[25..29]) == count
  {
    hide U64LE, U32LE, FromLE;
    var header := ClaimHeader(index, amount, count);
    Fields(DISC_CLAIM, [0], U64LE(index), U64LE(amount), U32LE(count));
    assert header[25..29] == header[25..];
  }

  lemma SlicesOfPrefix(header: seq<byte>, rest: seq<byte>)
    requires |header| == 29
    ensures var data := header + rest;
            && data[..8] == header[..8] && data[9..17] == header[9..17] && data[17..25] == header[17..25]
            && data[25..29] == header[25..29] && data[29..] == rest
  {
  }
}
