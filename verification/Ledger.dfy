/**
 The balance cache under interleaving: any number of threads, each inside one operation, taking one atomic
 load, compare-and-swap or addition at a time in any order.
 */
module Ledgers {
  import opened CoreTypes
  import opened Balances

  /** Unit 0 is funds, unit y + 1 the shares of symbol y. */
  function SharesUnit(y: nat): nat {
    y + 1
  }

  const CASH: nat := 0

  /** Every symbol has a unit of its own beside the funds. */
  lemma UnitsApart(y: nat, y': nat)
    ensures SharesUnit(y) != CASH && (SharesUnit(y) == SharesUnit(y') <==> y == y')
  {
  }

  /** Where a thread stands: the next atomic action of its operation, with what it has read so far. */
  datatype Op =
    | Idle
    | LoadAvailable(u: nat, k: nat, amount: int)
    | SwapAvailable(u: nat, k: nat, amount: int, seen: int)
    | AddBlocked(u: nat, k: nat, amount: int)
    | SpendFunds(buyer: nat, seller: nat, y: nat, price: int, qty: int)
    | GiveShares(buyer: nat, seller: nat, y: nat, price: int, qty: int)
    | TakeShares(buyer: nat, seller: nat, y: nat, price: int, qty: int)
    | PayFunds(buyer: nat, seller: nat, y: nat, price: int, qty: int)
    | LoadBlocked(k: nat, amount: int)
    | SwapBlocked(k: nat, amount: int, seen: int)
    | ReturnFunds(k: nat, released: int)
    | ReleaseShares(y: nat, k: nat, qty: int)
    | ReturnShares(y: nat, k: nat, qty: int)

  datatype Ledger = Ledger(accounts: seq<seq<Account>>, threads: seq<Op>)

  /** A thread begins an operation; or takes its next action, where a weak swap may fail for no reason;
      or an account is paid into. */
  datatype Label = Begin(i: nat, op: Op) | Act(i: nat, spurious: bool) | Deposit(u: nat, k: nat, amount: int)

  ghost predicate Shaped(s: Ledger) {
    && |s.accounts| >= 1
    && (forall u :: 0 <= u < |s.accounts| ==> |s.accounts[u]| == MAX_USERS)
    && (forall i :: 0 <= i < |s.threads| ==> InBounds(s.threads[i], |s.accounts|))
  }

  /** Operations on nothing return at once, so amounts and quantities are positive; prices never negative. */
  predicate InBounds(op: Op, units: nat) {
    match op
    case Idle => true
    case LoadAvailable(u, k, amount) => u < units && k < MAX_USERS && amount > 0
    case SwapAvailable(u, k, amount, _) => u < units && k < MAX_USERS && amount > 0
    case AddBlocked(u, k, amount) => u < units && k < MAX_USERS && amount > 0
    case SpendFunds(b, c, y, price, qty) =>
      b < MAX_USERS && c < MAX_USERS && SharesUnit(y) < units && price >= 0 && qty > 0
    case GiveShares(b, c, y, price, qty) =>
      b < MAX_USERS && c < MAX_USERS && SharesUnit(y) < units && price >= 0 && qty > 0
    case TakeShares(b, c, y, price, qty) =>
      b < MAX_USERS && c < MAX_USERS && SharesUnit(y) < units && price >= 0 && qty > 0
    case PayFunds(b, c, y, price, qty) =>
      b < MAX_USERS && c < MAX_USERS && SharesUnit(y) < units && price >= 0 && qty > 0
    case LoadBlocked(k, amount) => k < MAX_USERS && amount > 0
    case SwapBlocked(k, amount, _) => k < MAX_USERS && amount > 0
    case ReturnFunds(k, _) => k < MAX_USERS
    case ReleaseShares(y, k, qty) => SharesUnit(y) < units && k < MAX_USERS && qty > 0
    case ReturnShares(y, k, qty) => SharesUnit(y) < units && k < MAX_USERS && qty > 0
  }

  predicate Starts(op: Op) {
    op.LoadAvailable? || op.SpendFunds? || op.LoadBlocked? || op.ReleaseShares?
  }

  ghost predicate Enabled(s: Ledger, l: Label) {
    match l
    case Begin(i, op) => i < |s.threads| && s.threads[i].Idle? && Starts(op) && InBounds(op, |s.accounts|)
    case Act(i, _) => i < |s.threads| && !s.threads[i].Idle?
    case Deposit(u, k, amount) => u < |s.accounts| && k < MAX_USERS && amount > 0
  }

  /** Adds to one account. */
  function Added(s: seq<seq<Account>>, u: nat, k: nat, available: int, blocked: int): seq<seq<Account>>
    requires u < |s| && k < |s[u]|
  {
    var a := s[u][k];
    s[u := s[u][k := Account(a.available + available, a.blocked + blocked)]]
  }

  /** One atomic action of one thread: the accounts, and where the thread stands next. */
  function Action(accounts: seq<seq<Account>>, op: Op, spurious: bool): (seq<seq<Account>>, Op)
    requires |accounts| >= 1 && (forall u :: 0 <= u < |accounts| ==> |accounts[u]| == MAX_USERS)
    requires InBounds(op, |accounts|)
  {
    match op
    case Idle => (accounts, op)
    case LoadAvailable(u, k, amount) => (accounts, SwapAvailable(u, k, amount, accounts[u][k].available))
    case SwapAvailable(u, k, amount, seen) =>
      if seen < amount then (accounts, Idle)
      else if spurious || accounts[u][k].available != seen
      then (accounts, SwapAvailable(u, k, amount, accounts[u][k].available))
      else (Added(accounts, u, k, -amount, 0), AddBlocked(u, k, amount))
    case AddBlocked(u, k, amount) => (Added(accounts, u, k, 0, amount), Idle)
    case SpendFunds(b, c, y, price, qty) =>
      (Added(accounts, CASH, b, 0, -(price * qty)), GiveShares(b, c, y, price, qty))
    case GiveShares(b, c, y, price, qty) => (Added(accounts, SharesUnit(y), b, qty, 0), TakeShares(b, c, y, price, qty))
    case TakeShares(b, c, y, price, qty) => (Added(accounts, SharesUnit(y), c, 0, -qty), PayFunds(b, c, y, price, qty))
    case PayFunds(b, c, y, price, qty) => (Added(accounts, CASH, c, price * qty, 0), Idle)
    case LoadBlocked(k, amount) => (accounts, SwapBlocked(k, amount, accounts[CASH][k].blocked))
    case SwapBlocked(k, amount, seen) =>
      if spurious || accounts[CASH][k].blocked != seen
      then (accounts, SwapBlocked(k, amount, accounts[CASH][k].blocked))
      else var d := Min(seen, amount); (Added(accounts, CASH, k, 0, -d), ReturnFunds(k, d))
    case ReturnFunds(k, released) => (Added(accounts, CASH, k, released, 0), Idle)
    case ReleaseShares(y, k, qty) => (Added(accounts, SharesUnit(y), k, 0, -qty), ReturnShares(y, k, qty))
    case ReturnShares(y, k, qty) => (Added(accounts, SharesUnit(y), k, qty, 0), Idle)
  }

  ghost function Next(s: Ledger, l: Label): Ledger
    requires Shaped(s) && Enabled(s, l)
  {
    match l
    case Begin(i, op) => s.(threads := s.threads[i := op])
    case Act(i, spurious) =>
      var (accounts, op) := Action(s.accounts, s.threads[i], spurious);
      Ledger(accounts, s.threads[i := op])
    case Deposit(u, k, amount) => s.(accounts := Added(s.accounts, u, k, amount, 0))
  }

  lemma NextShaped(s: Ledger, l: Label)
    requires Shaped(s) && Enabled(s, l)
    ensures Shaped(Next(s, l)) && |Next(s, l).accounts| == |s.accounts|
  {
  }

  // ----- conservation

  /** What a thread has taken out of one account and not yet put into another. */
  function InFlight(op: Op, u: nat): int {
    match op
    case AddBlocked(u', _, amount) => if u == u' then amount else 0
    case GiveShares(_, _, _, price, qty) => if u == CASH then price * qty else 0
    case TakeShares(_, _, y, price, qty) => if u == CASH then price * qty else if u == SharesUnit(y) then -qty else 0
    case PayFunds(_, _, _, price, qty) => if u == CASH then price * qty else 0
    case ReturnFunds(_, released) => if u == CASH then released else 0
    case ReturnShares(y, _, qty) => if u == SharesUnit(y) then qty else 0
    case _ => 0
  }

  function Sum(s: seq<Account>): int {
    if s == [] then 0 else s[0].Total() + Sum(s[1..])
  }

  function Flying(threads: seq<Op>, u: nat): int {
    if threads == [] then 0 else InFlight(threads[0], u) + Flying(threads[1..], u)
  }

  function Supply(s: Ledger, u: nat): int
    requires u < |s.accounts|
  {
    Sum(s.accounts[u]) + Flying(s.threads, u)
  }

  lemma {:induction false} SumUpdate(s: seq<Account>, k: nat, a: Account)
    requires k < |s|
    ensures Sum(s[k := a]) == Sum(s) - s[k].Total() + a.Total()
  {
    if k > 0 {
      SumUpdate(s[1..], k - 1, a);
      assert s[k := a][1..] == s[1..][k - 1 := a];
    }
  }

  lemma {:induction false} FlyingUpdate(threads: seq<Op>, i: nat, op: Op, u: nat)
    requires i < |threads|
    ensures Flying(threads[i := op], u) == Flying(threads, u) - InFlight(threads[i], u) + InFlight(op, u)
  {
    if i > 0 {
      FlyingUpdate(threads[1..], i - 1, op, u);
      assert threads[i := op][1..] == threads[1..][i - 1 := op];
    }
  }

  lemma AddedSum(s: seq<seq<Account>>, u: nat, k: nat, available: int, blocked: int, v: nat)
    requires u < |s| && k < |s[u]| && v < |s|
    ensures Sum(Added(s, u, k, available, blocked)[v]) == Sum(s[v]) + if u == v then available + blocked else 0
  {
    SumUpdate(s[u], k, Added(s, u, k, available, blocked)[u][k]);
  }

  /** An action moves as much as it takes in flight, in every unit. */
  lemma ActionBalances(accounts: seq<seq<Account>>, op: Op, spurious: bool, v: nat)
    requires |accounts| >= 1 && (forall u :: 0 <= u < |accounts| ==> |accounts[u]| == MAX_USERS)
    requires InBounds(op, |accounts|)
    requires v < |accounts|
    ensures var (accounts', op') := Action(accounts, op, spurious);
      |accounts'| == |accounts| && Sum(accounts'[v]) + InFlight(op', v) == Sum(accounts[v]) + InFlight(op, v)
  {
    hide Sum;
    match op
    case SwapAvailable(u, k, amount, _) => AddedSum(accounts, u, k, -amount, 0, v);
    case AddBlocked(u, k, amount) => AddedSum(accounts, u, k, 0, amount, v);
    case SpendFunds(b, _, _, price, qty) => AddedSum(accounts, CASH, b, 0, -(price * qty), v);
    case GiveShares(b, _, y, _, qty) => AddedSum(accounts, SharesUnit(y), b, qty, 0, v);
    case TakeShares(_, c, y, _, qty) => AddedSum(accounts, SharesUnit(y), c, 0, -qty, v);
    case PayFunds(_, c, _, price, qty) => AddedSum(accounts, CASH, c, price * qty, 0, v);
    case SwapBlocked(k, amount, seen) => AddedSum(accounts, CASH, k, 0, -Min(seen, amount), v);
    case ReturnFunds(k, released) => AddedSum(accounts, CASH, k, released, 0, v);
    case ReleaseShares(y, k, qty) => AddedSum(accounts, SharesUnit(y), k, 0, -qty, v);
    case ReturnShares(y, k, qty) => AddedSum(accounts, SharesUnit(y), k, qty, 0, v);
    case _ =>
  }

  /** In every interleaving, available, blocked and in flight together change by deposits alone. */
  lemma StepConserves(s: Ledger, l: Label, u: nat)
    requires Shaped(s) && Enabled(s, l) && u < |s.accounts|
    ensures |Next(s, l).accounts| == |s.accounts|
    ensures Supply(Next(s, l), u) == Supply(s, u) + if l.Deposit? && l.u == u then l.amount else 0
  {
    hide Sum, Flying, Added, Action;
    match l
    case Begin(i, op) => FlyingUpdate(s.threads, i, op, u);
    case Act(i, spurious) =>
      ActionBalances(s.accounts, s.threads[i], spurious, u);
      FlyingUpdate(s.threads, i, Action(s.accounts, s.threads[i], spurious).1, u);
    case Deposit(v, k, amount) =>
      AddedLength(s.accounts, v, k, amount, 0);
      AddedSum(s.accounts, v, k, amount, 0, u);
  }

  lemma AddedLength(s: seq<seq<Account>>, u: nat, k: nat, available: int, blocked: int)
    requires u < |s| && k < |s[u]|
    ensures |Added(s, u, k, available, blocked)| == |s|
  {
  }

  // ----- nothing available is ever spent twice

  /** No account is overdrawn. */
  ghost predicate AvailOk(s: Ledger) {
    AllAvailable(s.accounts)
  }

  ghost predicate AllAvailable(accounts: seq<seq<Account>>) {
    forall u, k :: 0 <= u < |accounts| && 0 <= k < |accounts[u]| ==> accounts[u][k].available >= 0
  }

  /** A release of funds is about to hand back a debt that is more than is available. */
  predicate Overdraws(s: Ledger, l: Label) {
    l.Act? && l.i < |s.threads| && s.threads[l.i].ReturnFunds? &&
    var op := s.threads[l.i];
    |s.accounts| > CASH && op.k < |s.accounts[CASH]| && s.accounts[CASH][op.k].available + op.released < 0
  }

  /** The invariant behind it: nor does any release under way hand back a debt. */
  ghost predicate NonNegative(s: Ledger) {
    AvailOk(s) && forall i :: 0 <= i < |s.threads| && s.threads[i].ReturnFunds? ==> s.threads[i].released >= 0
  }

  /** A release of funds picks up the debt of an account whose blocked funds are negative. */
  predicate TakesDebt(s: Ledger, l: Label) {
    l.Act? && l.i < |s.threads| && s.threads[l.i].SwapBlocked? && !l.spurious &&
    var op := s.threads[l.i];
    |s.accounts| > CASH && op.k < |s.accounts[CASH]| && s.accounts[CASH][op.k].blocked == op.seen < 0
  }

  lemma AddedAvailable(s: seq<seq<Account>>, u: nat, k: nat, available: int, blocked: int)
    requires u < |s| && k < |s[u]| && AllAvailable(s)
    ensures AllAvailable(Added(s, u, k, available, blocked)) <==> s[u][k].available + available >= 0
  {
    var s': seq<seq<Account>> := Added(s, u, k, available, blocked);
    assert s'[u][k].available == s[u][k].available + available;
    if s[u][k].available + available >= 0 {
      forall v: nat, j: nat | v < |s'| && j < |s'[v]| ensures s'[v][j].available >= 0 {
        if v != u {
          assert s'[v] == s[v];
        } else if j != k {
          assert s'[v][j] == s[v][j];
        }
      }
    }
  }

  lemma ActionAvailable(s: Ledger, i: nat, spurious: bool)
    requires Shaped(s) && i < |s.threads| && AvailOk(s)
    ensures AllAvailable(Action(s.accounts, s.threads[i], spurious).0) <==> !Overdraws(s, Act(i, spurious))
  {
    var op, a := s.threads[i], s.accounts;
    assert InBounds(op, |a|);
    hide Added, AllAvailable;
    match op
    case SwapAvailable(u, k, amount, seen) =>
      AvailableAt(a, u, k);
      AddedAvailable(a, u, k, -amount, 0);
    case AddBlocked(u, k, amount) => Unlowered(a, u, k, 0, amount);
    case SpendFunds(b, _, _, price, qty) => Unlowered(a, CASH, b, 0, -(price * qty));
    case GiveShares(b, _, y, _, qty) => Unlowered(a, SharesUnit(y), b, qty, 0);
    case TakeShares(_, c, y, _, qty) => Unlowered(a, SharesUnit(y), c, 0, -qty);
    case PayFunds(_, c, _, price, qty) =>
      Notional(price, qty);
      Unlowered(a, CASH, c, price * qty, 0);
    case SwapBlocked(k, amount, seen) => Unlowered(a, CASH, k, 0, -Min(seen, amount));
    case ReturnFunds(k, released) => AddedAvailable(a, CASH, k, released, 0);
    case ReleaseShares(y, k, qty) => Unlowered(a, SharesUnit(y), k, 0, -qty);
    case ReturnShares(y, k, qty) => Unlowered(a, SharesUnit(y), k, qty, 0);
    case _ =>
  }

  lemma AvailableAt(s: seq<seq<Account>>, u: nat, k: nat)
    requires AllAvailable(s) && u < |s| && k < |s[u]|
    ensures s[u][k].available >= 0
  {
  }

  /** Whatever leaves an account's available balance no lower. */
  lemma Unlowered(s: seq<seq<Account>>, u: nat, k: nat, available: nat, blocked: int)
    requires u < |s| && k < |s[u]| && AllAvailable(s)
    ensures AllAvailable(Added(s, u, k, available, blocked))
  {
    AvailableAt(s, u, k);
    AddedAvailable(s, u, k, available, blocked);
  }

  lemma Notional(price: int, qty: int)
    requires price >= 0 && qty > 0
    ensures price * qty >= 0
  {
  }

  /** However reservations, settlements and releases race, no step overdraws an account but one: a release
      that hands back a debt of more than is then available. */
  lemma StepAvail(s: Ledger, l: Label)
    requires Shaped(s) && Enabled(s, l) && AvailOk(s)
    ensures AvailOk(Next(s, l)) <==> !Overdraws(s, l)
  {
    match l
    case Begin(i, op) =>
    case Act(i, spurious) =>
      hide Action, AllAvailable;
      ActionAvailable(s, i, spurious);
    case Deposit(u, k, amount) => Unlowered(s.accounts, u, k, amount, 0);
  }

  /** And such a debt is picked up exactly where a release finds blocked funds negative. */
  lemma StepNonNegative(s: Ledger, l: Label)
    requires Shaped(s) && Enabled(s, l) && NonNegative(s)
    ensures NonNegative(Next(s, l)) <==> !TakesDebt(s, l)
  {
    StepAvail(s, l);
    hide AllAvailable;
    if l.Act? {
      assert !Overdraws(s, l) by {
        if s.threads[l.i].ReturnFunds? {
          AvailableAt(s.accounts, CASH, s.threads[l.i].k);
        }
      }
      if TakesDebt(s, l) {
        assert Next(s, l).threads[l.i].ReturnFunds?;
      }
    }
  }

  // ----- whole runs

  ghost predicate Possible(s: Ledger, ls: seq<Label>)
    requires Shaped(s)
    decreases |ls|, 0
  {
    ls == [] || (Possible(s, ls[..|ls| - 1]) && Enabled(After(s, ls[..|ls| - 1]), ls[|ls| - 1]))
  }

  ghost function After(s: Ledger, ls: seq<Label>): (s': Ledger)
    requires Shaped(s) && Possible(s, ls)
    ensures Shaped(s') && |s'.accounts| == |s.accounts|
    decreases |ls|, 1
  {
    if ls == [] then s
    else
      var before := After(s, ls[..|ls| - 1]);
      NextShaped(before, ls[|ls| - 1]);
      Next(before, ls[|ls| - 1])
  }

  function Deposited(ls: seq<Label>, u: nat): int {
    if ls == [] then 0
    else
      var l := ls[|ls| - 1];
      Deposited(ls[..|ls| - 1], u) + if l.Deposit? && l.u == u then l.amount else 0
  }

  ghost predicate Solvent(s: Ledger)
    requires Shaped(s)
  {
    forall k :: 0 <= k < MAX_USERS ==> s.accounts[CASH][k].blocked >= 0
  }

  /** At every point of the run the blocked funds are not negative. */
  ghost predicate NeverOwes(s: Ledger, ls: seq<Label>)
    requires Shaped(s) && Possible(s, ls)
  {
    && Solvent(After(s, ls))
    && (ls == [] || NeverOwes(s, ls[..|ls| - 1]))
  }

  /** Over any interleaving from a quiet start, each unit's supply is what was there and what was paid in;
      and as long as no blocked funds are negative, no account is ever overdrawn. */
  lemma {:induction false} RunConserves(s: Ledger, ls: seq<Label>, u: nat)
    requires Shaped(s) && Possible(s, ls) && u < |s.accounts|
    ensures Supply(After(s, ls), u) == Supply(s, u) + Deposited(ls, u)
    ensures NonNegative(s) && NeverOwes(s, ls) ==> NonNegative(After(s, ls))
  {
    if ls != [] {
      hide Next, Enabled, Shaped, NonNegative, Supply, Solvent;
      var init, l := ls[..|ls| - 1], ls[|ls| - 1];
      RunConserves(s, init, u);
      StepConserves(After(s, init), l, u);
      if NonNegative(s) && NeverOwes(s, ls) {
        assert NeverOwes(s, init);
        SolventNext(After(s, init), l);
      }
    }
  }

  lemma SolventNext(s: Ledger, l: Label)
    requires Shaped(s) && Enabled(s, l) && NonNegative(s)
    requires Solvent(s)
    ensures NonNegative(Next(s, l))
  {
    StepNonNegative(s, l);
  }

  /** No step of the run overdraws an account. */
  ghost predicate NeverOverdraws(s: Ledger, ls: seq<Label>)
    requires Shaped(s) && Possible(s, ls)
  {
    ls == [] || (NeverOverdraws(s, ls[..|ls| - 1]) && !Overdraws(After(s, ls[..|ls| - 1]), ls[|ls| - 1]))
  }

  ghost predicate AlwaysAvail(s: Ledger, ls: seq<Label>)
    requires Shaped(s) && Possible(s, ls)
  {
    AvailOk(After(s, ls)) && (ls == [] || AlwaysAvail(s, ls[..|ls| - 1]))
  }

  /** Over every interleaving the available balances stay non-negative exactly as long as no release hands
      back a debt of more than is available. */
  lemma {:induction false} RunAvail(s: Ledger, ls: seq<Label>)
    requires Shaped(s) && Possible(s, ls) && AvailOk(s)
    ensures AlwaysAvail(s, ls) <==> NeverOverdraws(s, ls)
  {
    if ls != [] {
      hide Next, Enabled, Shaped, AvailOk, Overdraws;
      var init, l := ls[..|ls| - 1], ls[|ls| - 1];
      RunAvail(s, init);
      if AlwaysAvail(s, init) {
        StepAvail(After(s, init), l);
      }
    }
  }

  // ----- how an account comes to be overdrawn

  lemma RunOne(s: Ledger, ls: seq<Label>, l: Label)
    requires Shaped(s) && Possible(s, ls) && Enabled(After(s, ls), l)
    ensures Possible(s, ls + [l]) && After(s, ls + [l]) == Next(After(s, ls), l)
  {
    assert (ls + [l])[..|ls|] == ls;
  }

  /** l and then l' can be taken in s and lead to t. */
  ghost predicate Leads(s: Ledger, l: Label, l': Label, t: Ledger)
    requires Shaped(s)
  {
    Enabled(s, l) && Shaped(Next(s, l)) && Enabled(Next(s, l), l') && Next(Next(s, l), l') == t
  }

  lemma TwoMore(s: Ledger, ls: seq<Label>, l: Label, l': Label, t: Ledger)
    requires Shaped(s) && Possible(s, ls) && Leads(After(s, ls), l, l', t)
    ensures Possible(s, ls + [l, l']) && After(s, ls + [l, l']) == t
  {
    hide Next, Enabled, Shaped;
    RunOne(s, ls, l);
    RunOne(s, ls + [l], l');
    assert ls + [l] + [l'] == ls + [l, l'];
  }

  /** One thread settles a purchase of k that was not reserved for; another releases funds of k. */
  function Unreserved(k: nat, seller: nat, price: int, qty: int): seq<Label> {
    Bought(k, seller, price, qty) + [Act(1, false), Act(1, false)]
  }

  function Bought(k: nat, seller: nat, price: int, qty: int): seq<Label> {
    [Begin(0, SpendFunds(k, seller, 0, price, qty)), Act(0, false)] + [Begin(1, LoadBlocked(k, 1)), Act(1, false)]
  }

  ghost function Settling(s: Ledger, k: nat, seller: nat, price: int, qty: int): Ledger
    requires |s.accounts| >= 1 && k < |s.accounts[CASH]| && |s.threads| >= 2
  {
    Ledger(Added(s.accounts, CASH, k, 0, -(price * qty)), s.threads[0 := GiveShares(k, seller, 0, price, qty)])
  }

  ghost function Releasing(s: Ledger, k: nat): Ledger
    requires |s.accounts| >= 1 && k < |s.accounts[CASH]| && |s.threads| >= 2
  {
    s.(threads := s.threads[1 := SwapBlocked(k, 1, s.accounts[CASH][k].blocked)])
  }

  /** The release has taken the whole debt and handed it back. */
  ghost function Released(s: Ledger, k: nat): Ledger
    requires |s.accounts| >= 1 && k < |s.accounts[CASH]| && |s.threads| >= 2
  {
    var debt := s.accounts[CASH][k].blocked;
    Ledger(Added(s.accounts, CASH, k, debt, -debt), s.threads[1 := Idle])
  }

  lemma Settles(s: Ledger, k: nat, seller: nat, price: int, qty: int)
    requires Shaped(s) && |s.accounts| >= 2 && |s.threads| >= 2 && s.threads[0].Idle?
    requires k < MAX_USERS && seller < MAX_USERS && price >= 0 && qty > 0
    ensures var t := Settling(s, k, seller, price, qty);
      Shaped(t) && Leads(s, Begin(0, SpendFunds(k, seller, 0, price, qty)), Act(0, false), t)
  {
    NextShaped(s, Begin(0, SpendFunds(k, seller, 0, price, qty)));
    NextShaped(Next(s, Begin(0, SpendFunds(k, seller, 0, price, qty))), Act(0, false));
  }

  lemma Loads(s: Ledger, k: nat)
    requires Shaped(s) && |s.threads| >= 2 && s.threads[1].Idle? && k < MAX_USERS
    ensures Shaped(Releasing(s, k)) && Leads(s, Begin(1, LoadBlocked(k, 1)), Act(1, false), Releasing(s, k))
  {
    NextShaped(s, Begin(1, LoadBlocked(k, 1)));
    NextShaped(Next(s, Begin(1, LoadBlocked(k, 1))), Act(1, false));
  }

  lemma Hands(s: Ledger, k: nat)
    requires Shaped(s) && |s.threads| >= 2 && k < MAX_USERS && s.accounts[CASH][k].blocked < 0
    requires s.threads[1] == SwapBlocked(k, 1, s.accounts[CASH][k].blocked)
    ensures Leads(s, Act(1, false), Act(1, false), Released(s, k))
  {
    var debt := s.accounts[CASH][k].blocked;
    NextShaped(s, Act(1, false));
    assert Next(s, Act(1, false)).threads[1] == ReturnFunds(k, debt);
    AddedTwice(s.accounts, CASH, k, 0, -debt, debt, 0);
  }

  lemma DebtTaken(s: Ledger, k: nat, seller: nat, price: int, qty: int)
    requires Shaped(s) && |s.accounts| >= 2 && |s.threads| >= 2 && s.threads[0].Idle? && s.threads[1].Idle?
    requires k < MAX_USERS && seller < MAX_USERS && price >= 0 && qty > 0
    requires s.accounts[CASH][k].blocked < price * qty
    ensures Possible(s, Unreserved(k, seller, price, qty))
    ensures After(s, Unreserved(k, seller, price, qty)).accounts ==
      Released(Settling(s, k, seller, price, qty), k).accounts
  {
    var s2 := Settling(s, k, seller, price, qty);
    Settles(s, k, seller, price, qty);
    Loads(s2, k);
    Hands(Releasing(s2, k), k);
    hide Next, Shaped, Leads;
    var start: seq<Label> := [];
    assert Possible(s, start) && After(s, start) == s;
    var ls := [Begin(0, SpendFunds(k, seller, 0, price, qty)), Act(0, false)];
    TwoMore(s, start, ls[0], ls[1], s2);
    assert start + [ls[0], ls[1]] == ls;
    TwoMore(s, ls, Begin(1, LoadBlocked(k, 1)), Act(1, false), Releasing(s2, k));
    TwoMore(s, Bought(k, seller, price, qty), Act(1, false), Act(1, false), Released(Releasing(s2, k), k));
  }

  /** From any start, settle a purchase worth more than its buyer has blocked, as a market buy is, and then
      release some of the buyer's funds: the account is overdrawn exactly when the purchase was worth more
      than was available and blocked together. */
  lemma DebtOverdraws(s: Ledger, k: nat, seller: nat, price: int, qty: int)
    requires Shaped(s) && AvailOk(s) && |s.accounts| >= 2 && |s.threads| >= 2 && s.threads[0].Idle?
    requires s.threads[1].Idle?
    requires k < MAX_USERS && seller < MAX_USERS && price >= 0 && qty > 0
    requires s.accounts[CASH][k].blocked < price * qty
    ensures Possible(s, Unreserved(k, seller, price, qty))
    ensures AvailOk(After(s, Unreserved(k, seller, price, qty))) <==> price * qty <= s.accounts[CASH][k].Total()
  {
    DebtTaken(s, k, seller, price, qty);
    var a: seq<seq<Account>> := s.accounts;
    var n := price * qty;
    var debt := a[CASH][k].blocked - n;
    AvailableAt(a, CASH, k);
    AddedTwice(a, CASH, k, 0, -n, debt, -debt);
    AddedAvailable(a, CASH, k, debt, -n - debt);
  }

  // ----- an operation on its own does what the sequential cache does

  lemma AddedTwice(a: seq<seq<Account>>, u: nat, k: nat, x: int, y: int, x': int, y': int)
    requires u < |a| && k < |a[u]|
    ensures Added(Added(a, u, k, x, y), u, k, x', y') == Added(a, u, k, x + x', y + y')
  {
    var once := Added(a, u, k, x, y);
    assert once[u][k := Account(a[u][k].available + x + x', a[u][k].blocked + y + y')]
        == a[u][k := Account(a[u][k].available + x + x', a[u][k].blocked + y + y')];
    assert Added(once, u, k, x', y') == Added(a, u, k, x + x', y + y');
  }

  lemma SoloBlock(a: seq<seq<Account>>, u: nat, k: nat, amount: int)
    requires |a| >= 1 && (forall v :: 0 <= v < |a| ==> |a[v]| == MAX_USERS)
    requires u < |a| && k < MAX_USERS && amount > 0
    ensures var (a1, op1) := Action(a, LoadAvailable(u, k, amount), false);
      var (a2, op2) := Action(a1, op1, false);
      if CanBlock(a[u][k], amount)
      then Action(a2, op2, false) == (a[u := a[u][k := Blocked(a[u][k], amount)]], Idle)
      else (a2, op2) == (a, Idle)
  {
    AddedTwice(a, u, k, -amount, 0, 0, amount);
  }

  lemma SoloUnblock(a: seq<seq<Account>>, k: nat, amount: int)
    requires |a| >= 1 && (forall v :: 0 <= v < |a| ==> |a[v]| == MAX_USERS) && k < MAX_USERS && amount > 0
    ensures var (a1, op1) := Action(a, LoadBlocked(k, amount), false);
      var (a2, op2) := Action(a1, op1, false);
      Action(a2, op2, false) == (a[CASH := a[CASH][k := UnblockedFunds(a[CASH][k], amount)]], Idle)
  {
    var d := Min(a[CASH][k].blocked, amount);
    AddedTwice(a, CASH, k, 0, -d, d, 0);
  }

  function Settled(a: seq<seq<Account>>, op: Op): seq<seq<Account>>
    requires |a| >= 1 && (forall v :: 0 <= v < |a| ==> |a[v]| == MAX_USERS) && op.SpendFunds? && InBounds(op, |a|)
  {
    var (a1, op1) := Action(a, op, false);
    var (a2, op2) := Action(a1, op1, false);
    var (a3, op3) := Action(a2, op2, false);
    Action(a3, op3, false).0
  }

  lemma SoloSettle(a: seq<seq<Account>>, op: Op, k: nat)
    requires |a| >= 1 && (forall v :: 0 <= v < |a| ==> |a[v]| == MAX_USERS) && k < MAX_USERS
    requires op.SpendFunds? && InBounds(op, |a|)
    ensures var a', u := Settled(a, op), SharesUnit(op.y);
      && |a'| == |a| && |a'[CASH]| == |a'[u]| == MAX_USERS
      && a'[CASH][k] == SettledFunds(a[CASH][k], k, op.buyer, op.seller, op.price, op.qty)
      && a'[u][k] == SettledShares(a[u][k], k, op.buyer, op.seller, op.qty)
      && forall v :: 0 <= v < |a| && v != CASH && v != u ==> a'[v] == a[v]
  {
    var n := op.price * op.qty;
    var a1 := Added(a, CASH, op.buyer, 0, -n);
    var a2 := Added(a1, SharesUnit(op.y), op.buyer, op.qty, 0);
    var a3 := Added(a2, SharesUnit(op.y), op.seller, 0, -op.qty);
    assert Settled(a, op) == Added(a3, CASH, op.seller, n, 0);
  }
}
