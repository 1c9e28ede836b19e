/** One SPL mint with its token accounts, and the token program's transfer, mint and burn. */
module Token {
  import opened Bytes
  import opened Results
  import opened Sums

  datatype Holding = Holding(owner: Pubkey, amount: nat)

  datatype Ledger = Ledger(supply: nat, accounts: map<Pubkey, Holding>)

  function BalanceOf(t: Ledger, a: Pubkey): nat {
    if a in t.accounts then t.accounts[a].amount else 0
  }

  ghost function Balances(t: Ledger): map<Pubkey, int> {
    map a | a in t.accounts :: t.accounts[a].amount
  }

  /** The token program keeps the supply equal to the sum of all balances, in 64 bits. */
  ghost predicate Sound(t: Ledger) {
    Total(Balances(t)) == t.supply <= U64_MAX
  }

  function SetBalance(t: Ledger, a: Pubkey, amount: nat): Ledger
    requires a in t.accounts
  {
    t.(accounts := t.accounts[a := t.accounts[a].(amount := amount)])
  }

  /** A transfer fails on missing funds or on overflow of the target; to itself it is a no-op. */
  function Transfer(t: Ledger, from: Pubkey, to: Pubkey, amount: nat, authorised: bool): Option<Ledger> {
    if from !in t.accounts || to !in t.accounts then None
    else if t.accounts[from].amount < amount || !authorised then None
    else if from == to then Some(t)
    else if t.accounts[to].amount + amount > U64_MAX then None
    else
      var debited := SetBalance(t, from, t.accounts[from].amount - amount);
      Some(SetBalance(debited, to, t.accounts[to].amount + amount))
  }

  function MintTo(t: Ledger, to: Pubkey, amount: nat): Option<Ledger> {
    if to !in t.accounts then None
    else if t.accounts[to].amount + amount > U64_MAX || t.supply + amount > U64_MAX then None
    else Some(SetBalance(t, to, t.accounts[to].amount + amount).(supply := t.supply + amount))
  }

  function Burn(t: Ledger, from: Pubkey, amount: nat, authorised: bool): Option<Ledger> {
    if from !in t.accounts then None
    else if t.accounts[from].amount < amount || !authorised || t.supply < amount then None
    else Some(SetBalance(t, from, t.accounts[from].amount - amount).(supply := t.supply - amount))
  }

  // ------------------------------------------------------------ conservation

  lemma SetBalanceTotal(t: Ledger, a: Pubkey, amount: nat)
    requires a in t.accounts
    ensures Total(Balances(SetBalance(t, a, amount))) + t.accounts[a].amount == Total(Balances(t)) + amount
  {
    TotalUpdate(Balances(t), a, amount);
    assert Balances(SetBalance(t, a, amount)) == Balances(t)[a := amount];
  }

  lemma BalanceWithinSupply(t: Ledger, a: Pubkey)
    requires Sound(t) && a in t.accounts
    ensures t.accounts[a].amount <= t.supply
  {
    TotalAtLeast(Balances(t), a);
  }

  lemma TwoBalancesWithinSupply(t: Ledger, a: Pubkey, b: Pubkey)
    requires Sound(t) && a in t.accounts && b in t.accounts && a != b
    ensures t.accounts[a].amount + t.accounts[b].amount <= t.supply
  {
    TotalAtLeastTwo(Balances(t), a, b);
  }

  lemma TransferSound(t: Ledger, from: Pubkey, to: Pubkey, amount: nat, authorised: bool)
    requires Sound(t)
    ensures var r := Transfer(t, from, to, amount, authorised);
            r.Some? ==> Sound(r.value) && r.value.supply == t.supply
    ensures Transfer(t, from, to, amount, authorised).Some?
       <==> from in t.accounts && to in t.accounts && authorised && amount <= t.accounts[from].amount
  {
    if from in t.accounts && to in t.accounts && amount <= t.accounts[from].amount && from != to {
      TwoBalancesWithinSupply(t, from, to);
      TransferTotal(t, from, to, amount);
    }
  }

  lemma TransferTotal(t: Ledger, from: Pubkey, to: Pubkey, amount: nat)
    requires from in t.accounts && to in t.accounts && from != to && amount <= t.accounts[from].amount
    ensures var debited := SetBalance(t, from, t.accounts[from].amount - amount);
            Total(Balances(SetBalance(debited, to, t.accounts[to].amount + amount))) == Total(Balances(t))
  {
    hide Total, Balances;
    SetBalanceTotal(t, from, t.accounts[from].amount - amount);
    var debited := SetBalance(t, from, t.accounts[from].amount - amount);
    SetBalanceTotal(debited, to, t.accounts[to].amount + amount);
  }

  lemma MintSound(t: Ledger, to: Pubkey, amount: nat)
    requires Sound(t)
    ensures var r := MintTo(t, to, amount);
            r.Some? ==> Sound(r.value) && r.value.supply == t.supply + amount
    ensures MintTo(t, to, amount).Some? <==> to in t.accounts && t.supply + amount <= U64_MAX
  {
    if to in t.accounts {
      BalanceWithinSupply(t, to);
      SetBalanceTotal(t, to, t.accounts[to].amount + amount);
      var m := SetBalance(t, to, t.accounts[to].amount + amount);
      assert Balances(m.(supply := t.supply + amount)) == Balances(m);
    }
  }

  lemma BurnSound(t: Ledger, from: Pubkey, amount: nat, authorised: bool)
    requires Sound(t)
    ensures var r := Burn(t, from, amount, authorised);
            r.Some? ==> Sound(r.value) && r.value.supply == t.supply - amount
    ensures Burn(t, from, amount, authorised).Some?
       <==> from in t.accounts && authorised && amount <= t.accounts[from].amount
  {
    if from in t.accounts && amount <= t.accounts[from].amount {
      BalanceWithinSupply(t, from);
      SetBalanceTotal(t, from, t.accounts[from].amount - amount);
      var m := SetBalance(t, from, t.accounts[from].amount - amount);
      assert Balances(m.(supply := t.supply - amount)) == Balances(m);
    }
  }
}
