/** The token program the market calls, reduced to balances: one mint per
    asset with its token accounts, and transfer, mint, burn and authority
    revocation that either complete or fail without changing anything. */
module Ledger {
  import opened Wrappers
  import opened Arith
  import opened Errors
  import opened State

  /** Token accounts the market touches: a user's own account for the asset,
      the collateral vault, and the two outcome-token escrows. */
  datatype Holder = Wallet(owner: Pubkey) | Vault | YesEscrow | NoEscrow

  /** One mint: the balance of every account of it, its supply, and whether a
      mint authority still exists. */
  datatype Mint = Mint(balances: map<Holder, u64>, supply: u64, mintAuthority: bool)

  datatype Ledger = Ledger(collateral: Mint, yes: Mint, no: Mint)

  function Balance(m: Mint, h: Holder): u64
  {
    if h in m.balances then m.balances[h] else 0
  }

  function OutcomeMint(l: Ledger, t: TokenType): Mint
  {
    if t == Yes then l.yes else l.no
  }

  function WithOutcomeMint(l: Ledger, t: TokenType, m: Mint): Ledger
  {
    if t == Yes then l.(yes := m) else l.(no := m)
  }

  function EscrowOf(t: TokenType): Holder
  {
    if t == Yes then YesEscrow else NoEscrow
  }

  /** Some holder of a non-empty balance map. */
  ghost function Pick(b: map<Holder, u64>): (h: Holder)
    requires |b| > 0
    ensures h in b
  {
    var h :| h in b; h
  }

  /** Sum of all balances of a mint. */
  ghost function Sum(b: map<Holder, u64>): nat
    decreases |b|
  {
    if |b| == 0 then 0
    else
      var h := Pick(b);
      b[h] + Sum(b - {h})
  }

  /** The supply of a mint is the sum of its balances. */
  ghost predicate Consistent(m: Mint)
  {
    Sum(m.balances) == m.supply
  }

  lemma {:induction false} SumRemove(b: map<Holder, u64>, k: Holder)
    requires k in b
    ensures Sum(b) == b[k] + Sum(b - {k})
    decreases |b|
  {
    var h := Pick(b);
    if h != k {
      var bh, bk := b - {h}, b - {k};
      assert |bh| < |b|;
      SumRemove(bh, k);
      assert bh[k] == b[k];
      assert |bk| < |b|;
      SumRemove(bk, h);
      assert bk[h] == b[h];
      assert bh - {k} == bk - {h};
    }
  }

  /** Overwriting one balance changes the sum by exactly the difference. */
  lemma SumUpdate(b: map<Holder, u64>, k: Holder, v: u64)
    ensures Sum(b[k := v]) + (if k in b then b[k] else 0) == Sum(b) + v
  {
    var b' := b[k := v];
    var rest := b' - {k};
    SumRemove(b', k);
    assert Sum(b') == v + Sum(rest);
    if k in b {
      SumRemove(b, k);
      assert rest == b - {k} by {
        assert forall h :: h in rest <==> h in b - {k};
      }
    } else {
      assert rest == b by {
        assert forall h :: h in rest <==> h in b;
      }
    }
  }

  lemma BalanceBelowSum(b: map<Holder, u64>, h: Holder, g: Holder)
    requires h != g
    ensures (if h in b then b[h] else 0) + (if g in b then b[g] else 0) <= Sum(b)
  {
    if h in b {
      SumRemove(b, h);
      if g in b {
        SumRemove(b - {h}, g);
      }
    } else if g in b {
      SumRemove(b, g);
    }
  }

  /** In a consistent mint no balance, and no two balances together, exceed the supply. */
  lemma BalancesBelowSupply(m: Mint, h: Holder, g: Holder)
    requires Consistent(m)
    requires h != g
    ensures Balance(m, h) + Balance(m, g) <= m.supply
  {
    BalanceBelowSum(m.balances, h, g);
  }

  function Transfer(m: Mint, from: Holder, to: Holder, amount: u64): (r: Result<Mint, Error>)
    ensures r.Ok? <==> amount <= Balance(m, from) && (from == to || Balance(m, to) + amount <= U64_MAX)
    ensures r.Err? ==> r.error == (if amount > Balance(m, from) then Token(InsufficientFunds) else Token(Overflow))
    ensures r.Ok? && from != to ==>
      Balance(r.value, from) == Balance(m, from) - amount && Balance(r.value, to) == Balance(m, to) + amount
    ensures r.Ok? && from == to ==> r.value == m
    ensures r.Ok? ==> forall h :: h != from && h != to ==> Balance(r.value, h) == Balance(m, h)
    ensures r.Ok? ==> r.value.supply == m.supply && r.value.mintAuthority == m.mintAuthority
  {
    if Balance(m, from) < amount then Err(Token(InsufficientFunds))
    else if from == to then Ok(m)
    else if Balance(m, to) + amount > U64_MAX then Err(Token(Overflow))
    else Ok(m.(balances := m.balances[from := Balance(m, from) - amount][to := Balance(m, to) + amount]))
  }

  function MintTo(m: Mint, to: Holder, amount: u64): (r: Result<Mint, Error>)
    ensures r.Ok? <==> m.mintAuthority && m.supply + amount <= U64_MAX && Balance(m, to) + amount <= U64_MAX
    ensures r.Err? ==> r.error == (if !m.mintAuthority then Token(FixedSupply) else Token(Overflow))
    ensures r.Ok? ==> Balance(r.value, to) == Balance(m, to) + amount && r.value.supply == m.supply + amount
    ensures r.Ok? ==> forall h :: h != to ==> Balance(r.value, h) == Balance(m, h)
    ensures r.Ok? ==> r.value.mintAuthority
  {
    if !m.mintAuthority then Err(Token(FixedSupply))
    else if Balance(m, to) + amount > U64_MAX then Err(Token(Overflow))
    else if m.supply + amount > U64_MAX then Err(Token(Overflow))
    else Ok(m.(balances := m.balances[to := Balance(m, to) + amount], supply := m.supply + amount))
  }

  function Burn(m: Mint, from: Holder, amount: u64): (r: Result<Mint, Error>)
    ensures r.Ok? <==> amount <= Balance(m, from) && amount <= m.supply
    ensures r.Err? ==> r.error == (if amount > Balance(m, from) then Token(InsufficientFunds) else Token(Overflow))
    ensures r.Ok? ==> Balance(r.value, from) == Balance(m, from) - amount && r.value.supply == m.supply - amount
    ensures r.Ok? ==> forall h :: h != from ==> Balance(r.value, h) == Balance(m, h)
    ensures r.Ok? ==> r.value.mintAuthority == m.mintAuthority
  {
    if Balance(m, from) < amount then Err(Token(InsufficientFunds))
    else if m.supply < amount then Err(Token(Overflow))
    else Ok(m.(balances := m.balances[from := Balance(m, from) - amount], supply := m.supply - amount))
  }

  /** Setting the mint authority to none: only possible while one exists. */
  function RevokeMintAuthority(m: Mint): (r: Result<Mint, Error>)
    ensures r.Ok? <==> m.mintAuthority
    ensures r.Err? ==> r.error == Token(FixedSupply)
    ensures r.Ok? ==> r.value == m.(mintAuthority := false)
  {
    if !m.mintAuthority then Err(Token(FixedSupply))
    else Ok(m.(mintAuthority := false))
  }

  lemma TransferKeepsConsistent(m: Mint, from: Holder, to: Holder, amount: u64)
    requires Consistent(m)
    requires Transfer(m, from, to, amount).Ok?
    ensures Consistent(Transfer(m, from, to, amount).value)
  {
    if from != to {
      var bf, bt := Balance(m, from), Balance(m, to);
      var b1 := m.balances[from := bf - amount];
      var b2 := b1[to := bt + amount];
      assert Transfer(m, from, to, amount).value.balances == b2;
      SumUpdate(m.balances, from, bf - amount);
      assert (if to in b1 then b1[to] else 0) == bt;
      SumUpdate(b1, to, bt + amount);
    }
  }

  /** In a consistent mint a covered transfer cannot overflow its destination. */
  lemma CoveredTransferSucceeds(m: Mint, from: Holder, to: Holder, amount: u64)
    requires Consistent(m)
    requires amount <= Balance(m, from)
    ensures Transfer(m, from, to, amount).Ok?
  {
    if from != to {
      BalancesBelowSupply(m, from, to);
    }
  }

  lemma MintToKeepsConsistent(m: Mint, to: Holder, amount: u64)
    requires Consistent(m)
    requires MintTo(m, to, amount).Ok?
    ensures Consistent(MintTo(m, to, amount).value)
  {
    SumUpdate(m.balances, to, Balance(m, to) + amount);
  }

  lemma BurnKeepsConsistent(m: Mint, from: Holder, amount: u64)
    requires Consistent(m)
    requires Burn(m, from, amount).Ok?
    ensures Consistent(Burn(m, from, amount).value)
  {
    SumUpdate(m.balances, from, Balance(m, from) - amount);
  }

  /** In a consistent mint burning at most one's balance cannot fail. */
  lemma CoveredBurnSucceeds(m: Mint, from: Holder, amount: u64)
    requires Consistent(m)
    requires amount <= Balance(m, from)
    ensures Burn(m, from, amount).Ok?
  {
    if from != Vault {
      BalancesBelowSupply(m, from, Vault);
    } else {
      BalancesBelowSupply(m, from, YesEscrow);
    }
  }

  /** In a consistent mint with an authority, minting fails only on supply overflow. */
  lemma MintWithinSupplySucceeds(m: Mint, to: Holder, amount: u64)
    requires Consistent(m)
    requires m.mintAuthority && m.supply + amount <= U64_MAX
    ensures MintTo(m, to, amount).Ok?
  {
    if to != Vault {
      BalancesBelowSupply(m, to, Vault);
    } else {
      BalancesBelowSupply(m, to, YesEscrow);
    }
  }
}
