/** The chain snapshot: decoding Position accounts, adding up token holdings per owner, and
    joining both into one row per wallet. Amounts are exact reals. */
module Snapshot {
  import opened Bytes
  import opened Sums
  import opened Reals
  import opened Rewards
  import VaultModel

  const POSITION_SIZE := 66

  // ------------------------------------------------------------ Position accounts

  /** A Position as Anchor lays it out after its discriminator; `last_update` is an i64. */
  function SerializePosition(discriminator: seq<byte>, p: VaultModel.Position): (data: seq<byte>)
    requires |discriminator| == 8
    requires 0 <= p.principal <= U64_MAX && 0 <= p.receiptSupply <= U64_MAX
    ensures |data| == POSITION_SIZE
  {
    discriminator + p.owner.bytes + [p.venue] + U64LE(p.principal) + U64LE(p.receiptSupply)
      + U64LE(p.lastUpdate % (U64_MAX + 1)) + [p.bump]
  }

  datatype PositionRow = PositionRow(owner: Pubkey, principalWxrp: real)

  function DecodePosition(data: seq<byte>): PositionRow
    requires |data| == POSITION_SIZE
  {
    PositionRow(Pubkey(data[8..40]), FromLE(data[41..49]) as real / 1_000_000.0)
  }

  /** The two offsets the indexer reads recover owner and principal of any position. */
  lemma DecodeRecovers(discriminator: seq<byte>, p: VaultModel.Position)
    requires |discriminator| == 8
    requires 0 <= p.principal <= U64_MAX && 0 <= p.receiptSupply <= U64_MAX
    ensures DecodePosition(SerializePosition(discriminator, p))
         == PositionRow(p.owner, p.principal as real / 1_000_000.0)
  {
    FieldOffsets(discriminator, p.owner.bytes, [p.venue], U64LE(p.principal),
                 U64LE(p.receiptSupply), U64LE(p.lastUpdate % (U64_MAX + 1)), [p.bump]);
  }

  lemma FieldOffsets(disc: seq<byte>, owner: seq<byte>, venue: seq<byte>, principal: seq<byte>,
                     receipts: seq<byte>, updated: seq<byte>, bump: seq<byte>)
    requires |disc| == 8 && |owner| == 32 && |venue| == 1 && |principal| == 8
    ensures var data := disc + owner + venue + principal + receipts + updated + bump;
            |data| >= 49 && data[8..40] == owner && data[41..49] == principal
  {
  }

  /** The RPC filter returns only accounts of the Position size. */
  method FetchVaultPositions(accounts: seq<seq<byte>>) returns (positions: seq<PositionRow>)
    requires forall i :: 0 <= i < |accounts| ==> |accounts[i]| == POSITION_SIZE
    ensures |positions| == |accounts|
    ensures forall i :: 0 <= i < |accounts| ==> positions[i] == DecodePosition(accounts[i])
  {
    positions := [];
    for i := 0 to |accounts|
      invariant |positions| == i
      invariant forall j :: 0 <= j < i ==> positions[j] == DecodePosition(accounts[j])
    {
      var data := accounts[i];
      var owner := Pubkey(data[8..40]);
      var principalRaw := FromLE(data[41..49]);
      positions := positions + [PositionRow(owner, principalRaw as real / 1_000_000.0)];
    }
  }

  // ------------------------------------------------------------ insertion-ordered maps

  /** A JavaScript Map: keys in insertion order. */
  datatype Table = Table(keys: seq<Pubkey>, at: map<Pubkey, real>) {
    ghost predicate Valid() {
      Distinct(keys) && forall k :: k in keys <==> k in at
    }

    function Get(k: Pubkey): real {
      if k in at then at[k] else 0.0
    }

    function Set(k: Pubkey, v: real): Table {
      Table(if k in at then keys else keys + [k], at[k := v])
    }
  }

  ghost predicate Distinct(keys: seq<Pubkey>) {
    forall i, j :: 0 <= i < j < |keys| ==> keys[i] != keys[j]
  }

  const EMPTY_TABLE := Table([], map[])

  /** `keys`, and after them the owners that are not among them, in the order of first appearance. */
  function Appeared(keys: seq<Pubkey>, owners: seq<Pubkey>): seq<Pubkey> {
    if owners == [] then keys
    else
      var before, last := Appeared(keys, owners[..|owners| - 1]), owners[|owners| - 1];
      if last in before then before else before + [last]
  }

  /** `x` is mentioned before `y` is. */
  ghost predicate Earlier(owners: seq<Pubkey>, x: Pubkey, y: Pubkey) {
    exists k :: FirstAt(owners, x, k) && y !in owners[..k + 1]
  }

  lemma EarlierInMore(front: seq<Pubkey>, last: Pubkey, x: Pubkey, y: Pubkey)
    requires Earlier(front, x, y)
    ensures Earlier(front + [last], x, y)
  {
    var k :| FirstAt(front, x, k) && y !in front[..k + 1];
    var owners := front + [last];
    assert front[..k + 1] == owners[..k + 1] && front[..k] == owners[..k];
    assert FirstAt(owners, x, k);
  }

  /** The first mention of each newcomer decides its place. */
  lemma {:induction false} AppearedInOrder(owners: seq<Pubkey>, i: nat, j: nat)
    requires i < j < |Appeared([], owners)|
    ensures Earlier(owners, Appeared([], owners)[i], Appeared([], owners)[j])
  {
    var front, last := owners[..|owners| - 1], owners[|owners| - 1];
    var before := Appeared([], front);
    assert owners == front + [last];
    if j < |before| {
      AppearedInOrder(front, i, j);
      EarlierInMore(front, last, before[i], before[j]);
    } else {
      AppearedMembers([], front);
      var k := FirstMention(front, before[i]);
      assert forall x :: x in front[..k + 1] ==> x in front;
      EarlierInMore(front, last, before[i], last);
    }
  }

  predicate FirstAt(owners: seq<Pubkey>, x: Pubkey, k: int) {
    0 <= k < |owners| && owners[k] == x && x !in owners[..k]
  }

  lemma {:induction false} FirstMention(owners: seq<Pubkey>, x: Pubkey) returns (k: nat)
    requires x in owners
    ensures FirstAt(owners, x, k)
  {
    var front := owners[..|owners| - 1];
    if x in front {
      k := FirstMention(front, x);
      assert front[..k] == owners[..k];
    } else {
      k := |owners| - 1;
      assert owners == front + [owners[k]];
    }
  }

  lemma {:induction false} AppearedMembers(keys: seq<Pubkey>, owners: seq<Pubkey>)
    ensures forall x :: x in Appeared(keys, owners) <==> x in keys || x in owners
  {
    if owners != [] {
      AppearedMembers(keys, owners[..|owners| - 1]);
      assert owners == owners[..|owners| - 1] + [owners[|owners| - 1]];
    }
  }

  /** Something credited to an owner: a token account's balance or a position's principal. */
  datatype Credit = Credit(owner: Pubkey, amount: real)

  function CreditTo(owner: Pubkey): Credit -> real {
    (c: Credit) => if c.owner == owner then c.amount else 0.0
  }

  function AmountOf(): Credit -> real {
    (c: Credit) => c.amount
  }

  function OwnersOf(credits: seq<Credit>): (owners: seq<Pubkey>)
    ensures |owners| == |credits|
  {
    seq(|credits|, i requires 0 <= i < |credits| => credits[i].owner)
  }

  ghost predicate Aggregates(t: Table, credits: seq<Credit>) {
    && t.Valid() && t.keys == Appeared([], OwnersOf(credits))
    && (forall k :: t.Get(k) == SumOf(credits, CreditTo(k)))
    && (forall k :: k in t.at <==> Mentions(credits, k))
  }

  predicate Mentions(credits: seq<Credit>, k: Pubkey) {
    exists i :: 0 <= i < |credits| && credits[i].owner == k
  }

  lemma NothingAggregates()
    ensures Aggregates(EMPTY_TABLE, [])
  {
  }

  lemma AggregatesSnoc(t: Table, credits: seq<Credit>, c: Credit)
    requires Aggregates(t, credits)
    ensures Aggregates(t.Set(c.owner, t.Get(c.owner) + c.amount), credits + [c])
  {
    hide SumOf, Mentions, Appeared, OwnersOf, Distinct;
    KeysSnoc(t, credits, c);
    MentionsSnoc(credits, c);
    AmountsSnoc(t, credits, c);
  }

  lemma AmountsSnoc(t: Table, credits: seq<Credit>, c: Credit)
    requires forall k :: t.Get(k) == SumOf(credits, CreditTo(k))
    ensures forall k :: t.Set(c.owner, t.Get(c.owner) + c.amount).Get(k) == SumOf(credits + [c], CreditTo(k))
  {
    hide SumOf;
    forall k ensures t.Set(c.owner, t.Get(c.owner) + c.amount).Get(k) == SumOf(credits + [c], CreditTo(k)) {
      SumSnoc(credits, c, CreditTo(k));
    }
  }

  lemma SumSnoc(credits: seq<Credit>, c: Credit, f: Credit -> real)
    ensures SumOf(credits + [c], f) == SumOf(credits, f) + f(c)
  {
    assert (credits + [c])[..|credits|] == credits;
  }

  lemma KeysSnoc(t: Table, credits: seq<Credit>, c: Credit)
    requires t.Valid() && t.keys == Appeared([], OwnersOf(credits))
    ensures var t' := t.Set(c.owner, t.Get(c.owner) + c.amount);
            t'.Valid() && t'.keys == Appeared([], OwnersOf(credits + [c]))
  {
    SetIsValid(t, c.owner, t.Get(c.owner) + c.amount);
    hide Distinct;
    var owners := OwnersOf(credits + [c]);
    assert owners[..|owners| - 1] == OwnersOf(credits) && owners[|owners| - 1] == c.owner;
    hide OwnersOf;
  }

  lemma SetIsValid(t: Table, k: Pubkey, v: real)
    requires t.Valid()
    ensures t.Set(k, v).Valid()
  {
  }

  lemma MentionsSnoc(credits: seq<Credit>, c: Credit)
    ensures forall k :: Mentions(credits + [c], k) <==> Mentions(credits, k) || c.owner == k
  {
    var all := credits + [c];
    forall k ensures Mentions(all, k) <==> Mentions(credits, k) || c.owner == k {
      if Mentions(credits, k) {
        var i :| 0 <= i < |credits| && credits[i].owner == k;
        assert all[i].owner == k;
      }
      if k == c.owner {
        assert all[|credits|].owner == k;
      }
      if Mentions(all, k) && k != c.owner {
        var i :| 0 <= i < |all| && all[i].owner == k;
        assert credits[i].owner == k;
      }
    }
  }

  // ------------------------------------------------------------ token holdings

  /** A token account as unpacked, or None when it cannot be. */
  datatype RawAccount = Unreadable | Account(owner: Pubkey, amount: nat)

  /** The credits that count: readable accounts with a nonzero balance. */
  function Counted(accounts: seq<RawAccount>, divisor: real): seq<Credit>
    requires divisor > 0.0
  {
    if accounts == [] then [] else
      var last := accounts[|accounts| - 1];
      var before := Counted(accounts[..|accounts| - 1], divisor);
      if last.Unreadable? || last.amount == 0 then before
      else before + [Credit(last.owner, last.amount as real / divisor)]
  }

  /** The raw balance of a readable account, of anybody or of `k`. */
  function RawAmount(): RawAccount -> nat {
    (a: RawAccount) => if a.Account? then a.amount else 0
  }

  function RawOf(k: Pubkey): RawAccount -> nat {
    (a: RawAccount) => if a.Account? && a.owner == k then a.amount else 0
  }

  /** Credits are raw balances in whole tokens: per owner and in all they are the sums of the raw
      balances over the divisor. */
  lemma CountedIsRaw(accounts: seq<RawAccount>, divisor: real, k: Pubkey)
    requires divisor > 0.0
    ensures SumOf(Counted(accounts, divisor), CreditTo(k)) == SumBy(accounts, RawOf(k)) as real / divisor
    ensures SumOf(Counted(accounts, divisor), AmountOf()) == SumBy(accounts, RawAmount()) as real / divisor
  {
    ZeroQuotient(divisor);
    forall a: RawAccount
      ensures CreditTo(k)(CreditFor(a, divisor)) == (if Counts(a) then RawOf(k)(a) as real / divisor else 0.0)
      ensures AmountOf()(CreditFor(a, divisor)) == (if Counts(a) then RawAmount()(a) as real / divisor else 0.0)
    {
    }
    CountedBy(accounts, divisor, CreditTo(k), RawOf(k));
    CountedBy(accounts, divisor, AmountOf(), RawAmount());
  }

  predicate Counts(a: RawAccount) {
    a.Account? && a.amount != 0
  }

  function CreditFor(a: RawAccount, divisor: real): Credit
    requires divisor > 0.0
  {
    if Counts(a) then Credit(a.owner, a.amount as real / divisor) else Credit(Pubkey(seq(32, _ => 0)), 0.0)
  }

  lemma {:induction false} CountedBy(accounts: seq<RawAccount>, divisor: real, f: Credit -> real, g: RawAccount -> nat)
    requires divisor > 0.0
    requires forall a: RawAccount :: Counts(a) ==> f(CreditFor(a, divisor)) == g(a) as real / divisor
    requires forall a: RawAccount :: !Counts(a) ==> g(a) == 0
    ensures SumOf(Counted(accounts, divisor), f) == SumBy(accounts, g) as real / divisor
  {
    if accounts == [] {
      ZeroQuotient(divisor);
    } else {
      var front, last := accounts[..|accounts| - 1], accounts[|accounts| - 1];
      CountedBy(front, divisor, f, g);
      AddQuotients(SumBy(front, g), g(last), divisor);
      CountedStep(accounts, divisor);
      if Counts(last) {
        SumSnoc(Counted(front, divisor), CreditFor(last, divisor), f);
      }
      hide SumOf, Counted;
    }
  }

  lemma CountedStep(accounts: seq<RawAccount>, divisor: real)
    requires divisor > 0.0 && accounts != []
    ensures var last := accounts[|accounts| - 1];
            Counted(accounts, divisor)
              == Counted(accounts[..|accounts| - 1], divisor)
                 + (if Counts(last) then [CreditFor(last, divisor)] else [])
  {
  }

  lemma ZeroQuotient(divisor: real)
    requires divisor > 0.0
    ensures 0.0 / divisor == 0.0
  {
  }

  /** Sums balances per owner, in the order in which owners first appear. */
  method FetchTokenHoldings(accounts: seq<RawAccount>, divisor: real) returns (holdings: Table)
    requires divisor > 0.0
    ensures Aggregates(holdings, Counted(accounts, divisor))
  {
    hide Aggregates;
    holdings := EMPTY_TABLE;
    NothingAggregates();
    for i := 0 to |accounts|
      invariant Aggregates(holdings, Counted(accounts[..i], divisor))
    {
      assert accounts[..i + 1][..i] == accounts[..i];
      if accounts[i].Unreadable? {
        continue;
      }
      var amount := accounts[i].amount as real / divisor;
      NonzeroQuotient(accounts[i].amount, divisor);
      if amount == 0.0 {
        continue;
      }
      AggregatesSnoc(holdings, Counted(accounts[..i], divisor), Credit(accounts[i].owner, amount));
      holdings := holdings.Set(accounts[i].owner, holdings.Get(accounts[i].owner) + amount);
    }
    assert accounts[..|accounts|] == accounts;
  }

  lemma NonzeroQuotient(n: nat, divisor: real)
    requires divisor > 0.0
    ensures n as real / divisor == 0.0 <==> n == 0
  {
    if n as real / divisor == 0.0 {
      assert n as real == (n as real / divisor) * divisor;
    }
  }

  // ------------------------------------------------------------ the join

  function AsCredits(positions: seq<PositionRow>): (credits: seq<Credit>)
    ensures |credits| == |positions|
    ensures forall i :: 0 <= i < |positions| ==> credits[i] == Credit(positions[i].owner, positions[i].principalWxrp)
  {
    seq(|positions|, i requires 0 <= i < |positions| => Credit(positions[i].owner, positions[i].principalWxrp))
  }

  function PositionOwners(positions: seq<PositionRow>): (owners: seq<Pubkey>)
    ensures |owners| == |positions|
  {
    seq(|positions|, i requires 0 <= i < |positions| => positions[i].owner)
  }

  function WalletsOf(rows: seq<ParticipantInput>): seq<Pubkey> {
    seq(|rows|, i requires 0 <= i < |rows| => rows[i].wallet)
  }

  predicate OwnsPosition(positions: seq<PositionRow>, k: Pubkey) {
    exists j :: 0 <= j < |positions| && positions[j].owner == k
  }

  predicate HasRow(rows: seq<ParticipantInput>, k: Pubkey) {
    exists i :: 0 <= i < |rows| && rows[i].wallet == k
  }

  ghost predicate DistinctWallets(rows: seq<ParticipantInput>) {
    forall i, j :: 0 <= i < j < |rows| ==> rows[i].wallet != rows[j].wallet
  }

  /** One row per wallet that holds tokens or has a position, and nobody else; the first rows
      are the holders in their order, then owners of positions in order of first appearance. */
  ghost predicate Joined(rows: seq<ParticipantInput>, holdings: Table, positions: seq<PositionRow>, price: real) {
    && DistinctWallets(rows) && WalletsOf(rows) == Appeared(holdings.keys, PositionOwners(positions))
    && (forall k :: HasRow(rows, k) <==> k in holdings.at || OwnsPosition(positions, k))
    && |holdings.keys| <= |rows|
    && (forall i :: 0 <= i < |holdings.keys| ==> rows[i].wallet == holdings.keys[i])
    && (forall i :: 0 <= i < |rows| ==>
          && rows[i].yieldfyHeld == holdings.Get(rows[i].wallet)
          && rows[i].vaultUsd == SumOf(AsCredits(positions), CreditTo(rows[i].wallet)) * price)
  }

  /** The wallets seen so far: the holders first, then owners of positions as they appear. */
  ghost predicate UnionOf(wallets: seq<Pubkey>, holdings: Table, positions: seq<PositionRow>) {
    && Distinct(wallets) && wallets == Appeared(holdings.keys, PositionOwners(positions))
    && |holdings.keys| <= |wallets| && wallets[..|holdings.keys|] == holdings.keys
    && forall k :: k in wallets <==> k in holdings.at || OwnsPosition(positions, k)
  }

  lemma HoldersOnly(holdings: Table)
    requires holdings.Valid()
    ensures UnionOf(holdings.keys, holdings, [])
  {
  }

  lemma UnionSnoc(wallets: seq<Pubkey>, holdings: Table, positions: seq<PositionRow>, p: PositionRow)
    requires UnionOf(wallets, holdings, positions)
    ensures UnionOf(if p.owner in wallets then wallets else wallets + [p.owner], holdings, positions + [p])
  {
    OwnsPositionSnoc(positions, p);
    assert PositionOwners(positions + [p])[..|positions|] == PositionOwners(positions);
  }

  method BuildParticipants(holdings: Table, positions: seq<PositionRow>, wxrpPriceUsd: real)
    returns (rows: seq<ParticipantInput>)
    requires holdings.Valid()
    ensures Joined(rows, holdings, positions, wxrpPriceUsd)
  {
    hide UnionOf, Aggregates, Joined;
    var wallets := holdings.keys;
    HoldersOnly(holdings);
    for i := 0 to |positions|
      invariant UnionOf(wallets, holdings, positions[..i])
    {
      assert positions[..i + 1] == positions[..i] + [positions[i]];
      UnionSnoc(wallets, holdings, positions[..i], positions[i]);
      if positions[i].owner !in wallets {
        wallets := wallets + [positions[i].owner];
      }
    }
    assert positions[..|positions|] == positions;
    var positionByOwner := EMPTY_TABLE;
    NothingAggregates();
    ghost var credits := AsCredits(positions);
    for i := 0 to |positions|
      invariant Aggregates(positionByOwner, credits[..i])
    {
      var p := positions[i];
      assert credits[..i + 1] == credits[..i] + [credits[i]];
      AggregatesSnoc(positionByOwner, credits[..i], credits[i]);
      positionByOwner := positionByOwner.Set(p.owner, positionByOwner.Get(p.owner) + p.principalWxrp);
    }
    assert credits[..|positions|] == credits;
    rows := RowsFor(wallets, holdings, positionByOwner, wxrpPriceUsd);
    RowsAreJoined(wallets, holdings, positionByOwner, positions, wxrpPriceUsd);
  }

  lemma RowsAreJoined(wallets: seq<Pubkey>, holdings: Table, positionByOwner: Table,
                      positions: seq<PositionRow>, price: real)
    requires UnionOf(wallets, holdings, positions) && Aggregates(positionByOwner, AsCredits(positions))
    ensures Joined(RowsFor(wallets, holdings, positionByOwner, price), holdings, positions, price)
  {
    hide SumOf, Aggregates, Appeared, RowsFor;
    var rows := RowsFor(wallets, holdings, positionByOwner, price);
    RowsOfWallets(rows, wallets);
    assert WalletsOf(rows) == wallets;
    forall i | 0 <= i < |rows|
      ensures rows[i].yieldfyHeld == holdings.Get(rows[i].wallet)
      ensures rows[i].vaultUsd == SumOf(AsCredits(positions), CreditTo(rows[i].wallet)) * price
    {
      AggregateAt(positionByOwner, AsCredits(positions), wallets[i]);
    }
    HoldersFirst(wallets, holdings, positions);
    KeysOfUnion(wallets, rows, holdings, positions);
    hide UnionOf, HasRow, OwnsPosition, PositionOwners, WalletsOf, AsCredits;
  }

  lemma KeysOfUnion(wallets: seq<Pubkey>, rows: seq<ParticipantInput>, holdings: Table, positions: seq<PositionRow>)
    requires UnionOf(wallets, holdings, positions) && forall k :: HasRow(rows, k) <==> k in wallets
    ensures Distinct(wallets) && wallets == Appeared(holdings.keys, PositionOwners(positions))
    ensures |holdings.keys| <= |wallets|
    ensures forall k :: HasRow(rows, k) <==> k in holdings.at || OwnsPosition(positions, k)
  {
    hide HasRow, OwnsPosition, Appeared;
  }

  lemma HoldersFirst(wallets: seq<Pubkey>, holdings: Table, positions: seq<PositionRow>)
    requires UnionOf(wallets, holdings, positions)
    ensures forall i :: 0 <= i < |holdings.keys| ==> wallets[i] == holdings.keys[i]
  {
    forall i | 0 <= i < |holdings.keys| ensures wallets[i] == holdings.keys[i] {
      assert wallets[i] == wallets[..|holdings.keys|][i];
    }
  }

  lemma AggregateAt(t: Table, credits: seq<Credit>, k: Pubkey)
    requires Aggregates(t, credits)
    ensures t.Get(k) == SumOf(credits, CreditTo(k))
  {
  }

  function RowsFor(wallets: seq<Pubkey>, holdings: Table, positionByOwner: Table, price: real)
    : (rows: seq<ParticipantInput>)
    ensures |rows| == |wallets|
    ensures forall i :: 0 <= i < |rows| ==>
      rows[i] == ParticipantInput(wallets[i], holdings.Get(wallets[i]), positionByOwner.Get(wallets[i]) * price)
  {
    seq(|wallets|, i requires 0 <= i < |wallets| =>
      ParticipantInput(wallets[i], holdings.Get(wallets[i]), positionByOwner.Get(wallets[i]) * price))
  }

  lemma OwnsPositionSnoc(positions: seq<PositionRow>, p: PositionRow)
    ensures forall k :: OwnsPosition(positions + [p], k) <==> OwnsPosition(positions, k) || p.owner == k
  {
    var all := positions + [p];
    forall k ensures OwnsPosition(all, k) <==> OwnsPosition(positions, k) || p.owner == k {
      if OwnsPosition(positions, k) {
        var j :| 0 <= j < |positions| && positions[j].owner == k;
        assert all[j].owner == k;
      }
      if p.owner == k {
        assert all[|positions|].owner == k;
      }
      if OwnsPosition(all, k) && p.owner != k {
        var j :| 0 <= j < |all| && all[j].owner == k;
        assert positions[j].owner == k;
      }
    }
  }

  lemma RowsOfWallets(rows: seq<ParticipantInput>, wallets: seq<Pubkey>)
    requires |rows| == |wallets| && forall i :: 0 <= i < |rows| ==> rows[i].wallet == wallets[i]
    ensures forall k :: HasRow(rows, k) <==> k in wallets
    ensures Distinct(wallets) ==> DistinctWallets(rows)
  {
    forall k | k in wallets ensures HasRow(rows, k) {
      var i :| 0 <= i < |wallets| && wallets[i] == k;
      assert rows[i].wallet == k;
    }
  }

  // ------------------------------------------------------------ conservation

  function Held(): ParticipantInput -> real {
    (p: ParticipantInput) => p.yieldfyHeld
  }

  function Usd(): ParticipantInput -> real {
    (p: ParticipantInput) => p.vaultUsd
  }

  function WalletCredit(credits: seq<Credit>): ParticipantInput -> real {
    (p: ParticipantInput) => SumOf(credits, CreditTo(p.wallet))
  }

  /** One more credit raises the sum over distinct wallets by its amount, if its owner is there. */
  lemma {:induction false} OneMoreCredit(rows: seq<ParticipantInput>, credits: seq<Credit>, c: Credit)
    requires DistinctWallets(rows)
    ensures SumOf(rows, WalletCredit(credits + [c]))
         == SumOf(rows, WalletCredit(credits))
            + if HasRow(rows, c.owner) then c.amount else 0.0
  {
    if rows != [] {
      var front, last := rows[..|rows| - 1], rows[|rows| - 1];
      OneMoreCredit(front, credits, c);
      assert (credits + [c])[..|credits|] == credits;
      assert WalletCredit(credits + [c])(last) == WalletCredit(credits)(last) + CreditTo(last.wallet)(c);
      if last.wallet == c.owner {
        assert rows[|rows| - 1].wallet == c.owner;
        assert !HasRow(front, c.owner);
      } else {
        assert HasRow(rows, c.owner) <==> HasRow(front, c.owner) by {
          if HasRow(front, c.owner) {
            var i :| 0 <= i < |front| && front[i].wallet == c.owner;
            assert rows[i].wallet == c.owner;
          }
          if HasRow(rows, c.owner) {
            var i :| 0 <= i < |rows| && rows[i].wallet == c.owner;
            assert front[i].wallet == c.owner;
          }
        }
      }
    }
  }

  /** Adding up per wallet loses nothing when every owner has exactly one wallet row. */
  lemma {:induction false} NothingLost(rows: seq<ParticipantInput>, credits: seq<Credit>)
    requires DistinctWallets(rows)
    requires forall j :: 0 <= j < |credits| ==> HasRow(rows, credits[j].owner)
    ensures SumOf(rows, WalletCredit(credits)) == SumOf(credits, AmountOf())
  {
    if credits == [] {
      SumOfZero(rows, WalletCredit(credits));
    } else {
      var front, c := credits[..|credits| - 1], credits[|credits| - 1];
      assert credits == front + [c];
      NothingLost(rows, front);
      OneMoreCredit(rows, front, c);
    }
  }

  /** Conservation of value: the rows' vault values sum to the price of all principal. */
  lemma JoinConservesValue(rows: seq<ParticipantInput>, holdings: Table, positions: seq<PositionRow>, price: real)
    requires Joined(rows, holdings, positions, price)
    ensures SumOf(rows, Usd()) == price * SumOf(AsCredits(positions), AmountOf())
  {
    hide SumOf;
    var owed := AsCredits(positions);
    forall j | 0 <= j < |owed| ensures HasRow(rows, owed[j].owner) {
      assert OwnsPosition(positions, positions[j].owner);
    }
    NothingLost(rows, owed);
    ValuesArePriced(rows, holdings, positions, price);
  }

  /** Conservation of holdings: the rows' holdings sum to all the balances that were counted. */
  lemma JoinConservesHoldings(rows: seq<ParticipantInput>, holdings: Table, credits: seq<Credit>,
                              positions: seq<PositionRow>, price: real)
    requires Aggregates(holdings, credits) && Joined(rows, holdings, positions, price)
    ensures SumOf(rows, Held()) == SumOf(credits, AmountOf())
  {
    forall j | 0 <= j < |credits| ensures HasRow(rows, credits[j].owner) {
      assert Mentions(credits, credits[j].owner);
    }
    NothingLost(rows, credits);
    HoldingsAreCredits(rows, holdings, credits);
  }

  lemma ValuesArePriced(rows: seq<ParticipantInput>, holdings: Table, positions: seq<PositionRow>, price: real)
    requires Joined(rows, holdings, positions, price)
    ensures SumOf(rows, Usd()) == price * SumOf(rows, WalletCredit(AsCredits(positions)))
  {
    hide SumOf;
    var f := WalletCredit(AsCredits(positions));
    forall i | 0 <= i < |rows| ensures Usd()(rows[i]) == price * f(rows[i]) {
      assert rows[i].vaultUsd == f(rows[i]) * price;
    }
    SumOfScaled(rows, f, Usd(), price);
  }

  lemma HoldingsAreCredits(rows: seq<ParticipantInput>, holdings: Table, credits: seq<Credit>)
    requires Aggregates(holdings, credits)
    requires forall i :: 0 <= i < |rows| ==> rows[i].yieldfyHeld == holdings.Get(rows[i].wallet)
    ensures SumOf(rows, Held()) == SumOf(rows, WalletCredit(credits))
  {
    forall i | 0 <= i < |rows| ensures Held()(rows[i]) == 1.0 * WalletCredit(credits)(rows[i]) {
      AggregateAt(holdings, credits, rows[i].wallet);
    }
    SumOfScaled(rows, WalletCredit(credits), Held(), 1.0);
  }
}
