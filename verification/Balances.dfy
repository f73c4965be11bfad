/**
 The balance cache: per user slot one account of funds, and per slot and symbol one account of shares.
 Every method is told from one account at a time.
 */
module Balances {
  import opened CoreTypes

  const MAX_USERS: nat := 131072

  datatype Account = Account(available: int, blocked: int) {
    function Total(): int {
      available + blocked
    }
  }

  predicate CanBlock(a: Account, amount: int) {
    amount <= 0 || a.available >= amount
  }

  /** Reserves the amount, or leaves the account alone if it cannot. */
  function Blocked(a: Account, amount: int): Account {
    if amount <= 0 || a.available < amount then a else Account(a.available - amount, a.blocked + amount)
  }

  /** Releases the amount, but never more than is blocked. */
  function UnblockedFunds(a: Account, amount: int): Account {
    if amount <= 0 then a else var d := Min(a.blocked, amount); Account(a.available + d, a.blocked - d)
  }

  /** So a release overdraws a sound account exactly when it owes more than is available. */
  lemma ReleaseSound(a: Account, amount: int)
    requires a.available >= 0 && amount > 0
    ensures UnblockedFunds(a, amount).available >= 0 <==> a.blocked >= 0 || a.available + a.blocked >= 0
  {
  }

  /** Releases the amount, whatever is blocked. */
  function UnblockedShares(a: Account, qty: int): Account {
    if qty <= 0 then a else Account(a.available + qty, a.blocked - qty)
  }

  /** A trade's part in the account of slot k: the buyer's reservation is spent, the seller is paid. */
  function SettledFunds(a: Account, k: nat, buyer: nat, seller: nat, price: int, qty: int): Account {
    if qty <= 0 then a
    else Account(a.available + (if k == seller then price * qty else 0),
                 a.blocked - (if k == buyer then price * qty else 0))
  }

  function SettledShares(a: Account, k: nat, buyer: nat, seller: nat, qty: int): Account {
    if qty <= 0 then a
    else Account(a.available + (if k == buyer then qty else 0), a.blocked - (if k == seller then qty else 0))
  }

  // ----- where an account of shares is kept

  function SlotOf(user: nat): (k: nat)
    ensures k < MAX_USERS
  {
    user % MAX_USERS
  }

  /** Two users share a slot exactly when their ids are a multiple of the number of slots apart, so users with
      smaller ids have slots of their own. */
  lemma SlotShared(user: nat, other: nat)
    ensures SlotOf(user) == SlotOf(other) <==> (user - other) % MAX_USERS == 0
    ensures user < MAX_USERS && other < MAX_USERS ==> (SlotOf(user) == SlotOf(other) <==> user == other)
  {
    var d := user / MAX_USERS - other / MAX_USERS;
    assert user - other == MAX_USERS * d + (SlotOf(user) - SlotOf(other));
    if (user - other) % MAX_USERS == 0 {
      MultipleBetween((user - other) / MAX_USERS - d, SlotOf(user) - SlotOf(other));
    }
  }

  lemma MultipleBetween(n: int, r: int)
    requires MAX_USERS * n == r && 0 < r + MAX_USERS && r < MAX_USERS
    ensures r == 0
  {
  }

  function FlatIndex(k: nat, symbol: nat, numSymbols: nat): nat {
    k * numSymbols + symbol
  }

  function Groups(numSymbols: nat): nat {
    (MAX_USERS * numSymbols + 7) / 8
  }

  lemma {:induction false} TimesMonotone(a: nat, b: nat, c: nat)
    requires a <= b
    ensures a * c <= b * c
  {
    if a < b {
      TimesMonotone(a, b - 1, c);
      assert b * c == (b - 1) * c + c;
    }
  }

  lemma InGroup(flat: nat, slots: nat)
    requires flat < slots
    ensures flat / 8 < (slots + 7) / 8
  {
  }

  lemma FlatInRange(k: nat, symbol: nat, numSymbols: nat)
    requires k < MAX_USERS && symbol < numSymbols
    ensures FlatIndex(k, symbol, numSymbols) < MAX_USERS * numSymbols
    ensures FlatIndex(k, symbol, numSymbols) / 8 < Groups(numSymbols)
  {
    FlatBelow(k, symbol, MAX_USERS, 0, numSymbols);
    InGroup(FlatIndex(k, symbol, numSymbols), MAX_USERS * numSymbols);
  }

  lemma FlatBelow(k: nat, y: nat, k': nat, y': nat, n: nat)
    requires k < k' && y < n
    ensures FlatIndex(k, y, n) < FlatIndex(k', y', n)
  {
    TimesMonotone(k + 1, k', n);
    assert (k + 1) * n == k * n + n;
  }

  /** For symbols below the count, distinct accounts have distinct places. */
  lemma FlatInjective(k: nat, y: nat, k': nat, y': nat, numSymbols: nat)
    requires y < numSymbols && y' < numSymbols
    requires FlatIndex(k, y, numSymbols) / 8 == FlatIndex(k', y', numSymbols) / 8
    requires FlatIndex(k, y, numSymbols) % 8 == FlatIndex(k', y', numSymbols) % 8
    ensures k == k' && y == y'
  {
    if k < k' {
      FlatBelow(k, y, k', y', numSymbols);
    }
    if k' < k {
      FlatBelow(k', y', k, y, numSymbols);
    }
  }

  class BalanceCache {
    const numSymbols: nat
    const funds: array<Account>
    const holdings: array2<Account>  // groups of eight slots

    ghost predicate Valid() {
      funds.Length == MAX_USERS && holdings.Length0 == Groups(numSymbols) && holdings.Length1 == 8
    }

    constructor (numSymbols: nat)
      ensures Valid() && this.numSymbols == numSymbols && fresh(funds) && fresh(holdings)
      ensures forall k :: 0 <= k < MAX_USERS ==> funds[k] == Account(0, 0)
      ensures forall k: nat, y: nat :: k < MAX_USERS && y < numSymbols ==> Shares(k, y) == Account(0, 0)
    {
      this.numSymbols := numSymbols;
      funds := new Account[MAX_USERS](_ => Account(0, 0));
      holdings := new Account[Groups(numSymbols), 8]((_, _) => Account(0, 0));
      new;
      hide FlatIndex, Groups;
      forall k: nat, y: nat | k < MAX_USERS && y < numSymbols ensures Shares(k, y) == Account(0, 0) {
        FlatInRange(k, y, numSymbols);
      }
    }

    function Shares(k: nat, y: nat): Account
      requires Valid() && k < MAX_USERS && y < numSymbols
      reads holdings
    {
      FlatInRange(k, y, numSymbols);
      var flat := FlatIndex(k, y, numSymbols);
      holdings[flat / 8, flat % 8]
    }

    method SetShares(k: nat, y: nat, a: Account)
      requires Valid() && k < MAX_USERS && y < numSymbols
      modifies holdings
      ensures forall k': nat, y': nat :: k' < MAX_USERS && y' < numSymbols ==>
        Shares(k', y') == if k' == k && y' == y then a else old(Shares(k', y'))
    {
      FlatInRange(k, y, numSymbols);
      var flat := FlatIndex(k, y, numSymbols);
      holdings[flat / 8, flat % 8] := a;
      forall k': nat, y': nat | k' < MAX_USERS && y' < numSymbols && !(k' == k && y' == y)
        ensures Shares(k', y') == old(Shares(k', y'))
      {
        FlatInRange(k', y', numSymbols);
        var flat' := FlatIndex(k', y', numSymbols);
        if flat' / 8 == flat / 8 && flat' % 8 == flat % 8 {
          FlatInjective(k', y', k, y, numSymbols);
          assert false;
        }
      }
    }

    method TryBlockFunds(user: nat, amount: int) returns (ok: bool)
      requires Valid()
      modifies funds
      ensures ok <==> CanBlock(old(funds[SlotOf(user)]), amount)
      ensures funds[..] == old(funds[..])[SlotOf(user) := Blocked(old(funds[SlotOf(user)]), amount)]
    {
      if amount <= 0 {
        return true;
      }
      var a := funds[SlotOf(user)];
      if a.available < amount {
        return false;
      }
      funds[SlotOf(user)] := Account(a.available - amount, a.blocked + amount);
      ok := true;
    }

    method TryBlockHoldings(user: nat, symbol: nat, qty: int) returns (ok: bool)
      requires Valid() && symbol < numSymbols
      modifies holdings
      ensures ok <==> CanBlock(old(Shares(SlotOf(user), symbol)), qty)
      ensures forall k: nat, y: nat :: k < MAX_USERS && y < numSymbols ==>
        Shares(k, y) == if k == SlotOf(user) && y == symbol then Blocked(old(Shares(k, y)), qty) else old(Shares(k, y))
    {
      if qty <= 0 {
        return true;
      }
      var a := Shares(SlotOf(user), symbol);
      if a.available < qty {
        return false;
      }
      SetShares(SlotOf(user), symbol, Account(a.available - qty, a.blocked + qty));
      ok := true;
    }

    method SettleTrade(buyUser: nat, sellUser: nat, symbol: nat, price: int, qty: int)
      requires Valid() && symbol < numSymbols
      modifies funds, holdings
      ensures forall k :: 0 <= k < MAX_USERS ==>
        funds[k] == SettledFunds(old(funds[k]), k, SlotOf(buyUser), SlotOf(sellUser), price, qty)
      ensures forall k: nat, y: nat :: k < MAX_USERS && y < numSymbols ==>
        Shares(k, y) == if y == symbol then SettledShares(old(Shares(k, y)), k, SlotOf(buyUser), SlotOf(sellUser), qty)
                        else old(Shares(k, y))
    {
      if qty <= 0 {
        return;
      }
      var notional, buyer, seller := price * qty, SlotOf(buyUser), SlotOf(sellUser);
      funds[buyer] := funds[buyer].(blocked := funds[buyer].blocked - notional);
      var a := Shares(buyer, symbol);
      SetShares(buyer, symbol, a.(available := a.available + qty));
      a := Shares(seller, symbol);
      SetShares(seller, symbol, a.(blocked := a.blocked - qty));
      funds[seller] := funds[seller].(available := funds[seller].available + notional);
    }

    method UnblockFunds(user: nat, amount: int)
      requires Valid()
      modifies funds
      ensures funds[..] == old(funds[..])[SlotOf(user) := UnblockedFunds(old(funds[SlotOf(user)]), amount)]
    {
      if amount <= 0 {
        return;
      }
      var a := funds[SlotOf(user)];
      var d := if a.blocked < amount then a.blocked else amount;
      funds[SlotOf(user)] := Account(a.available + d, a.blocked - d);
    }

    method UnblockHoldings(user: nat, symbol: nat, qty: int)
      requires Valid() && symbol < numSymbols
      modifies holdings
      ensures forall k: nat, y: nat :: k < MAX_USERS && y < numSymbols ==>
        Shares(k, y) ==
        if k == SlotOf(user) && y == symbol then UnblockedShares(old(Shares(k, y)), qty) else old(Shares(k, y))
    {
      if qty <= 0 {
        return;
      }
      var a := Shares(SlotOf(user), symbol);
      SetShares(SlotOf(user), symbol, Account(a.available + qty, a.blocked - qty));
    }
  }
}
