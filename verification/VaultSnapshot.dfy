/** From the vault program to the rewards: what the snapshot of its position accounts is worth. */
module VaultSnapshot {
  import opened Bytes
  import opened Sums
  import opened Reals
  import opened Rewards
  import opened Snapshot
  import opened Token
  import opened VaultModel
  import opened VaultSafety

  const BASE_UNITS := 1_000_000.0

  /** The accounts serialize the program's positions, each once, in the order of `owners`. */
  ghost predicate SerializesPositions(accounts: seq<seq<byte>>, owners: seq<Pubkey>, s: State,
                                      discriminator: seq<byte>)
    requires Inv(s) && |discriminator| == 8
  {
    && |accounts| == |owners| && Distinct(owners)
    && (forall k :: k in owners <==> k in s.positions)
    && forall i :: 0 <= i < |owners| ==> Serializes(accounts[i], s, owners[i], discriminator)
  }

  ghost predicate Serializes(account: seq<byte>, s: State, owner: Pubkey, discriminator: seq<byte>)
    requires Inv(s) && |discriminator| == 8
  {
    owner in s.positions
    && (PositionFits(s, owner); account == SerializePosition(discriminator, s.positions[owner]))
  }

  lemma PositionFits(s: State, u: Pubkey)
    requires Inv(s) && u in s.positions
    ensures 0 <= s.positions[u].principal == s.positions[u].receiptSupply <= U64_MAX
    ensures s.positions[u].owner == u
  {
    PositionWithinVault(s, u);
  }

  /** Credits that list the values of a map, key by key, sum to its total. */
  lemma {:induction false} CreditsAreTotal(m: map<Pubkey, int>, owners: seq<Pubkey>, credits: seq<Credit>)
    requires Distinct(owners) && |credits| == |owners|
    requires forall k :: k in owners <==> k in m
    requires forall i :: 0 <= i < |owners| ==> credits[i].amount == m[owners[i]] as real / BASE_UNITS
    ensures SumOf(credits, AmountOf()) == Total(m) as real / BASE_UNITS
  {
    if owners == [] {
      assert m == map[];
    } else {
      hide Total;
      var front, last := owners[..|owners| - 1], owners[|owners| - 1];
      KeysWithoutLast(m, owners);
      assert last in owners;
      TotalSplit(m, last);
      CreditsAreTotal(m - {last}, front, credits[..|credits| - 1]);
      AddAmounts(Total(m - {last}), m[last]);
    }
  }

  lemma KeysWithoutLast(m: map<Pubkey, int>, owners: seq<Pubkey>)
    requires owners != [] && Distinct(owners) && forall k :: k in owners <==> k in m
    ensures var front, last := owners[..|owners| - 1], owners[|owners| - 1];
            Distinct(front) && forall k :: k in front <==> k in m - {last}
  {
    var front, last := owners[..|owners| - 1], owners[|owners| - 1];
    assert owners == front + [last];
    forall k ensures k in front <==> k in m - {last} {
      assert k in owners <==> k in front || k == last;
    }
  }

  lemma AddAmounts(a: int, b: int)
    ensures (a + b) as real / BASE_UNITS == a as real / BASE_UNITS + b as real / BASE_UNITS
  {
  }

  lemma RowsOfPositions(s: State, accounts: seq<seq<byte>>, owners: seq<Pubkey>, discriminator: seq<byte>,
                        positions: seq<PositionRow>)
    requires Inv(s) && |discriminator| == 8 && SerializesPositions(accounts, owners, s, discriminator)
    requires forall i :: 0 <= i < |accounts| ==> |accounts[i]| == POSITION_SIZE
    requires |positions| == |accounts|
    requires forall i :: 0 <= i < |accounts| ==> positions[i] == DecodePosition(accounts[i])
    ensures SumOf(AsCredits(positions), AmountOf()) == SumPrincipal(s) as real / BASE_UNITS
  {
    hide SumOf, Total;
    var credits, m := AsCredits(positions), Principals(s.positions);
    forall i | 0 <= i < |owners| ensures credits[i].amount == m[owners[i]] as real / BASE_UNITS {
      DecodedAmount(s, accounts[i], owners[i], discriminator);
    }
    CreditsAreTotal(m, owners, credits);
  }

  lemma DecodedAmount(s: State, account: seq<byte>, owner: Pubkey, discriminator: seq<byte>)
    requires Inv(s) && |discriminator| == 8 && |account| == POSITION_SIZE
    requires Serializes(account, s, owner, discriminator)
    ensures DecodePosition(account) == PositionRow(owner, s.positions[owner].principal as real / BASE_UNITS)
  {
    PositionFits(s, owner);
    DecodeRecovers(discriminator, s.positions[owner]);
  }

  /** What the snapshot values is what the vault owes, and no more than it holds: for the accounts
      of any reachable state, the rows' vault values sum to the price of all principal, which is
      at most the price of the vault's balance. */
  lemma SnapshotIsBacked(s: State, accounts: seq<seq<byte>>, owners: seq<Pubkey>, discriminator: seq<byte>,
                         positions: seq<PositionRow>, holdings: Table, rows: seq<ParticipantInput>, price: real)
    requires Inv(s) && |discriminator| == 8 && SerializesPositions(accounts, owners, s, discriminator)
    requires forall i :: 0 <= i < |accounts| ==> |accounts[i]| == POSITION_SIZE
    requires |positions| == |accounts|
    requires forall i :: 0 <= i < |accounts| ==> positions[i] == DecodePosition(accounts[i])
    requires Joined(rows, holdings, positions, price)
    ensures SumOf(rows, Usd()) == price * (SumPrincipal(s) as real / BASE_UNITS)
    ensures price >= 0.0 ==> SumOf(rows, Usd()) <= price * (VaultBalance(s) as real / BASE_UNITS)
  {
    hide SumOf, Joined, AsCredits, Inv, SerializesPositions, SumPrincipal, VaultBalance, DecodePosition;
    RowsOfPositions(s, accounts, owners, discriminator, positions);
    JoinConservesValue(rows, holdings, positions, price);
    Backed(s);
    Worth(price, SumOf(rows, Usd()), SumOf(AsCredits(positions), AmountOf()),
          SumPrincipal(s) as real / BASE_UNITS, VaultBalance(s) as real / BASE_UNITS);
  }

  lemma Backed(s: State)
    requires Inv(s)
    ensures SumPrincipal(s) as real / BASE_UNITS <= VaultBalance(s) as real / BASE_UNITS
  {
  }

  lemma Worth(price: real, total: real, credited: real, owed: real, held: real)
    requires total == price * credited && credited == owed <= held
    ensures total == price * owed
    ensures price >= 0.0 ==> total <= price * held
  {
    if price >= 0.0 {
      assert price * (held - owed) >= 0.0;
    }
  }
}
